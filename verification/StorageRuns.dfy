/** FileStorage over whole runs: what is got, told from the operations alone. */
module StorageRuns {
  import opened Common
  import opened DataIndex
  import opened FileStorage
  import opened JavaText

  /** The i-th operation puts a bundle, and nothing is deleted after it. */
  predicate Survives(ops: seq<Op>, i: nat) {
    i < |ops| && ops[i].Put? && forall j :: i < j < |ops| ==> !ops[j].Delete?
  }

  /** The signature, at the end, of what operation i put: the last signer's since, or else the one it was put with. */
  function PresentSignature(ops: seq<Op>, i: nat): JString
    requires i < |ops| && ops[i].Put?
    decreases |ops|
  {
    var last := |ops| - 1;
    if i == last then ops[i].signature
    else if ops[last].SignerChanged? then ops[last].sign(ops[i].bundle.request)
    else PresentSignature(ops[..last], i)
  }

  /** The record of each surviving put. */
  ghost predicate Explains(ops: seq<Op>, origins: seq<nat>, records: seq<Record>) {
    && |origins| == |records|
    && (forall n, m :: 0 <= n < m < |origins| ==> origins[n] < origins[m])
    && (forall i :: Survives(ops, i) ==> i in origins)
    && forall n :: 0 <= n < |origins| ==>
         && Survives(ops, origins[n])
         && records[n] == Record(PresentSignature(ops, origins[n]), ops[origins[n]].bundle)
  }

  lemma {:induction false} RunIsExplained(ops: seq<Op>) returns (origins: seq<nat>)
    ensures Explains(ops, origins, Run(ops))
    decreases |ops|
  {
    hide Explains;
    if ops == [] {
      origins := [];
      NothingExplained();
    } else {
      var init := ops[..|ops| - 1];
      var before := RunIsExplained(init);
      match ops[|ops| - 1]
      case Put(_, _) =>
        origins := before + [|init|];
        PutExplained(ops, before, Run(init));
      case SignerChanged(_) =>
        origins := before;
        SignerExplained(ops, before, Run(init));
      case Delete =>
        origins := [];
        DeleteExplained(ops);
    }
  }

  lemma NothingExplained()
    ensures Explains([], [], Run([]))
  {
  }

  lemma SurvivesStep(ops: seq<Op>, i: nat)
    requires ops != []
    ensures var last := |ops| - 1;
            Survives(ops, i) <==> if i == last then ops[i].Put? else !ops[last].Delete? && Survives(ops[..last], i)
  {
    var last := |ops| - 1;
    assert i < last && Survives(ops, i) ==> forall j :: i < j < last ==> !ops[..last][j].Delete?;
    assert i < last && !ops[last].Delete? && Survives(ops[..last], i) ==>
        forall j :: i < j < |ops| ==> if j < last then !ops[..last][j].Delete? else !ops[j].Delete?;
  }

  lemma PutExplained(ops: seq<Op>, before: seq<nat>, records: seq<Record>)
    requires ops != [] && ops[|ops| - 1].Put? && Explains(ops[..|ops| - 1], before, records)
    ensures var last := |ops| - 1;
            Explains(ops, before + [last], records + [Record(ops[last].signature, ops[last].bundle)])
  {
    hide Survives;
    var last := |ops| - 1;
    var origins := before + [last];
    SurvivesStep(ops, last);
    forall n | 0 <= n < |before| ensures before[n] < last && Survives(ops, before[n]) {
      SurvivesPrefix(ops, before[n]);
      SurvivesStep(ops, before[n]);
    }
    forall i | Survives(ops, i) ensures i in origins {
      SurvivesStep(ops, i);
      assert origins[|before|] == last && forall n :: 0 <= n < |before| ==> origins[n] == before[n];
    }
  }

  lemma SignerExplained(ops: seq<Op>, before: seq<nat>, records: seq<Record>)
    requires ops != [] && ops[|ops| - 1].SignerChanged? && Explains(ops[..|ops| - 1], before, records)
    ensures Explains(ops, before, Resigned(records, ops[|ops| - 1].sign))
  {
    hide Survives;
    forall i: nat ensures Survives(ops, i) <==> Survives(ops[..|ops| - 1], i) {
      SurvivesPrefix(ops, i);
      SurvivesStep(ops, i);
    }
    forall n | 0 <= n < |before| ensures before[n] < |ops| - 1 {
      SurvivesPrefix(ops, before[n]);
    }
  }

  lemma DeleteExplained(ops: seq<Op>)
    requires ops != [] && ops[|ops| - 1].Delete?
    ensures Explains(ops, [], [])
  {
    forall i: nat ensures !Survives(ops, i) {
      SurvivesStep(ops, i);
    }
  }

  lemma SurvivesPrefix(ops: seq<Op>, i: nat)
    requires ops != []
    ensures Survives(ops[..|ops| - 1], i) ==> i < |ops| - 1
  {
  }

  /**
   * What a key finds after any run is what was put last among what has not been deleted and has, by now, a signature
   * that matches.
   */
  lemma {:induction false} GetFromRun(same: Collation, ops: seq<Op>, key: JString, i: nat)
    requires Survives(ops, i) && same(PresentSignature(ops, i), key)
    requires forall j :: i < j && Survives(ops, j) ==> !same(PresentSignature(ops, j), key)
    ensures Get(same, Run(ops), key) == ops[i].bundle
  {
    hide Survives, PresentSignature, Run;
    var origins := RunIsExplained(ops);
    var n :| 0 <= n < |origins| && origins[n] == i;
    GetIsLast(same, Run(ops), key, n);
  }

  /** Where there is none, a request and a response that are both missing. */
  lemma {:induction false} MissesInRun(same: Collation, ops: seq<Op>, key: JString)
    requires forall j :: Survives(ops, j) ==> !same(PresentSignature(ops, j), key)
    ensures Get(same, Run(ops), key) == Bundle(None, None)
  {
    hide Survives, PresentSignature, Run;
    var origins := RunIsExplained(ops);
    GetMisses(same, Run(ops), key);
  }
}
