/** mustache.js: the regular expressions of the tokenizer, and the Scanner that moves through the template with them. */
module MustacheScanner {
  import opened Common
  import opened JavaText

  /** `\s`: white space and line terminators of ECMAScript 5.1, sections 7.2 and 7.3. */
  predicate White(c: Unit) {
    || 9 <= c <= 13 || c == 32 || c == 0xA0 || c == 0x1680 || 0x2000 <= c <= 0x200A
    || c == 0x2028 || c == 0x2029 || c == 0x202F || c == 0x205F || c == 0x3000 || c == 0xFEFF
  }

  predicate AllWhite(s: JString) {
    forall i :: 0 <= i < |s| ==> White(s[i])
  }

  /** How much white space the text begins with. */
  function Blanks(s: JString): (n: nat)
    ensures n <= |s| && AllWhite(s[..n]) && (n < |s| ==> !White(s[n]))
  {
    if s != [] && White(s[0]) then 1 + Blanks(s[1..]) else 0
  }

  /** The characters # ^ / > { & = ! that say what kind of tag it is. */
  const SIGILS: seq<Unit> := [35, 94, 47, 62, 123, 38, 61, 33]

  /**
   * The regular expressions: an opening tag with the blanks behind it, a closing text with those before it, a sigil,
   * blanks.
   */
  datatype Pattern = Opening(tag: JString) | Closing(tag: JString) | Sigil | Blank

  /** The longest k up to n such that the tag stands at position k: backtracking over `\s*`. */
  function Backtrack(s: JString, tag: JString, n: nat): (k: Option<nat>)
    requires n <= |s|
    ensures k.Some? ==> k.value <= n && StartsWith(s[k.value..], tag)
    ensures k.None? ==> forall j :: 0 <= j <= n ==> !StartsWith(s[j..], tag)
    ensures k.Some? ==> forall j :: k.value < j <= n ==> !StartsWith(s[j..], tag)
  {
    if StartsWith(s[n..], tag) then Some(n) else if n == 0 then None else Backtrack(s, tag, n - 1)
  }

  /** The length of the match that begins where the text begins. */
  function Match(p: Pattern, s: JString): (m: Option<nat>)
    ensures m.Some? ==> m.value <= |s|
  {
    match p
    case Opening(tag) => if StartsWith(s, tag) then Some(|tag| + Blanks(s[|tag|..])) else None
    case Closing(tag) =>
      (match Backtrack(s, tag, Blanks(s))
       case Some(k) => Some(k + |tag|)
       case None => None)
    case Sigil => if s != [] && s[0] in SIGILS then Some(1) else None
    case Blank => Some(Blanks(s))
  }

  /** The leftmost position where the pattern matches; the length of the text if there is none. */
  function Until(p: Pattern, s: JString): (n: nat)
    ensures n <= |s|
    ensures forall i :: 0 <= i < n ==> Match(p, s[i..]).None?
    ensures n < |s| ==> Match(p, s[n..]).Some?
    decreases |s|
  {
    if Match(p, s).Some? || s == [] then assert s[0..] == s; 0
    else
      var n := 1 + Until(p, s[1..]);
      assert s[n..] == s[1..][n - 1..];
      assert forall i :: 0 < i < n ==> s[i..] == s[1..][i - 1..];
      assert s[0..] == s;
      n
  }

  /** How far `scan` moves. */
  function Here(p: Pattern, s: JString): (n: nat)
    ensures n <= |s|
  {
    match Match(p, s)
    case Some(n) => n
    case None => 0
  }

  function HereAt(p: Pattern, s: JString, pos: nat): (n: nat)
    requires pos <= |s|
    ensures pos + n <= |s|
  {
    Here(p, s[pos..])
  }

  function UntilAt(p: Pattern, s: JString, pos: nat): (n: nat)
    requires pos <= |s|
    ensures pos + n <= |s|
  {
    Until(p, s[pos..])
  }

  lemma SliceAfter(s: JString, i: nat, n: nat)
    requires i + n <= |s|
    ensures s[i..][..n] == s[i..i + n] && s[i..][n..] == s[i + n..]
  {
  }

  class Scanner {
    const template: JString
    var tail: JString
    var pos: nat

    ghost predicate Valid()
      reads this
    {
      pos <= |template| && tail == template[pos..]
    }

    constructor (template: JString)
      ensures Valid() && pos == 0 && this.template == template
    {
      this.template := template;
      tail := template;
      pos := 0;
    }

    method Advance(n: nat)
      requires Valid() && n <= |tail|
      modifies this
      ensures Valid() && pos == old(pos) + n
    {
      assert template[pos..][n..] == template[pos + n..];
      tail := tail[n..];
      pos := pos + n;
    }

    /** Moves over a match that begins here, and returns it; otherwise stays, and returns the empty text. */
    method Scan(re: Pattern) returns (matched: JString)
      requires Valid()
      modifies this
      ensures Valid() && pos == old(pos) + HereAt(re, template, old(pos)) && matched == template[old(pos)..pos]
    {
      hide Match;
      var m := Match(re, tail);
      SliceAfter(template, pos, if m.Some? then m.value else 0);
      if m.Some? {
        matched := tail[..m.value];
        Advance(m.value);
      } else {
        matched := [];
      }
    }

    /** Skips to the next match, or to the end, and returns what was skipped. */
    method ScanUntil(re: Pattern) returns (skipped: JString)
      requires Valid()
      modifies this
      ensures Valid() && pos == old(pos) + UntilAt(re, template, old(pos)) && skipped == template[old(pos)..pos]
    {
      hide Until;
      var n := Until(re, tail);
      SliceAfter(template, pos, n);
      skipped := tail[..n];
      Advance(n);
    }
  }
}
