/** The constants of RFC 1321, section 3.4, derived from the power series of sine and cosine. */
module SineTable {
  import opened Rfc1321

  /** 29!, the scale of all integers below. */
  const D := 8841761993739701954543616000000

  /** 29! / n! */
  function Over(n: nat): nat
    decreases 29 - n
  {
    if n >= 29 then 1 else (n + 1) * Over(n + 1)
  }

  /** The series of sin 1 and of cos 1 up to their last negative terms, -1 / 27! and -1 / 26!, times 29!. */
  function SinSeries(): int {
    Over(1) - Over(3) + Over(5) - Over(7) + Over(9) - Over(11) + Over(13) - Over(15) + Over(17) - Over(19) + Over(21)
    - Over(23) + Over(25) - Over(27)
  }

  function CosSeries(): int {
    Over(0) - Over(2) + Over(4) - Over(6) + Over(8) - Over(10) + Over(12) - Over(14) + Over(16) - Over(18) + Over(20)
    - Over(22) + Over(24) - Over(26)
  }

  /**
   * Sine and cosine of the positive integers: the addition formulas, and sin 1 and cos 1 between the partial sums above
   * and those with one more term, because both series alternate.
   */
  ghost predicate SineAndCosine(s: nat -> real, c: nat -> real) {
    && SinSeries() as real <= s(1) * D as real <= (SinSeries() + Over(29)) as real
    && CosSeries() as real <= c(1) * D as real <= (CosSeries() + Over(28)) as real
    && (forall n: nat :: n >= 1 ==> s(n + 1) == s(n) * c(1) + c(n) * s(1))
    && (forall n: nat :: n >= 1 ==> c(n + 1) == c(n) * c(1) - s(n) * s(1))
  }

  /** Scaled sine and cosine of a number, and how far each may be from the true one. */
  datatype Approx = Approx(s: int, c: int, e: nat)

  const FIRST := Approx(7440086172309177470951709137212, 4777224393154841294624447631876, 29)

  function Following(p: Approx): Approx {
    Approx((p.s * FIRST.c + p.c * FIRST.s) / D, (p.c * FIRST.c - p.s * FIRST.s) / D, 3 * p.e / 2 + 40)
  }

  function At(n: nat): Approx
    requires n >= 1
  {
    if n == 1 then FIRST else Following(At(n - 1))
  }

  function Abs(x: int): nat {
    if x < 0 then -x else x
  }

  /** The approximation is good enough to tell the integer part of 2^32 times the absolute sine: it is `t`. */
  predicate Tells(p: Approx, t: nat) {
    && Abs(p.s) <= D && Abs(p.c) <= D && p.e < 0x1_0000_0000_0000
    && t * D + WORD * p.e <= WORD * Abs(p.s)
    && WORD * Abs(p.s) + WORD * p.e < (t + 1) * D
  }

  predicate Told(n: nat) {
    n >= 1 && Tells(At(n), T(n - 1))
  }

  // ---- the approximations ------------------------------------------------------------------------------------------

  lemma FirstValues()
    ensures SinSeries() == FIRST.s && CosSeries() == FIRST.c && Over(28) == 29 && Over(29) == 1
  {
    assert Over(28) == 29;
    assert Over(27) == 812;
    assert Over(26) == 21924;
    assert Over(25) == 570024;
    assert Over(24) == 14250600;
    assert Over(23) == 342014400;
    assert Over(22) == 7866331200;
    assert Over(21) == 173059286400;
    assert Over(20) == 3634245014400;
    assert Over(19) == 72684900288000;
    assert Over(18) == 1381013105472000;
    assert Over(17) == 24858235898496000;
    assert Over(16) == 422590010274432000;
    assert Over(15) == 6761440164390912000;
    assert Over(14) == 101421602465863680000;
    assert Over(13) == 1419902434522091520000;
    assert Over(12) == 18458731648787189760000;
    assert Over(11) == 221504779785446277120000;
    assert Over(10) == 2436552577639909048320000;
    assert Over(9) == 24365525776399090483200000;
    assert Over(8) == 219289731987591814348800000;
    assert Over(7) == 1754317855900734514790400000;
    assert Over(6) == 12280224991305141603532800000;
    assert Over(5) == 73681349947830849621196800000;
    assert Over(4) == 368406749739154248105984000000;
    assert Over(3) == 1473626998956616992423936000000;
    assert Over(2) == 4420880996869850977271808000000;
    assert Over(1) == 8841761993739701954543616000000;
    assert Over(0) == 8841761993739701954543616000000;
  }

  lemma Row(n: nat, p: Approx, next: Approx)
    requires n >= 1 && At(n) == p && Tells(p, T(n - 1)) && Following(p) == next
    ensures At(n + 1) == next && Told(n)
  {
    hide Tells, Following, T;
  }

  lemma Rows1()
    requires At(1) == FIRST
    ensures At(9) == Approx(3643853559728139504065945749779, -8055996920878038380396423542897, 2696)
    ensures forall n :: 1 <= n < 9 ==> Told(n)
  {
    hide At, Told;
    Row(1, FIRST,
        Approx(8039791429512620134552768931289, -3679471283197531538485460070529, 83));
    Row(2, Approx(8039791429512620134552768931289, -3679471283197531538485460070529, 83),
        Approx(1247749523819974418783949641852, -8753278030529299735692161438795, 164));
    Row(3, Approx(1247749523819974418783949641852, -8753278030529299735692161438795, 164),
        Approx(-6691467539781009129540310730496, -5779361324402287127486337581688, 286));
    Row(4, Approx(-6691467539781009129540310730496, -5779361324402287127486337581688, 286),
        Approx(-8478580206590948752583348201826, 2508073530489896557337758808809, 469));
    Row(5, Approx(-8478580206590948752583348201826, 2508073530489896557337758808809, 469),
        Approx(-2470525332437106925797086683188, 8489597148023361397729185399874, 743));
    Row(6, Approx(-2470525332437106925797086683188, 8489597148023361397729185399874, 743),
        Approx(5808919138948106145636478462888, 6665824299447313094610039170392, 1154));
    Row(7, Approx(5808919138948106145636478462888, 6665824299447313094610039170392, 1154),
        Approx(8747670143187567816923798453181, -1286476669016840768447237666486, 1771));
    Row(8, Approx(8747670143187567816923798453181, -1286476669016840768447237666486, 1771),
        Approx(3643853559728139504065945749779, -8055996920878038380396423542897, 2696));
  }

  lemma Rows9()
    requires At(9) == Approx(3643853559728139504065945749779, -8055996920878038380396423542897, 2696)
    ensures At(17) == Approx(-8500447804577339558055105994867, -2432928744455159198819114861034, 71060)
    ensures forall n :: 9 <= n < 17 ==> Told(n)
  {
    hide At, Told;
    Row(9, Approx(3643853559728139504065945749779, -8055996920878038380396423542897, 2696),
        Approx(-4810105182053681922921455911446, -7418870755817234533713822653634, 4084));
    Row(10, Approx(-4810105182053681922921455911446, -7418870755817234533713822653634, 4084),
        Approx(-8841675402391924164282263988574, 39130968266517703035572435244, 6166));
    Row(11, Approx(-8841675402391924164282263988574, 39130968266517703035572435244, 6166),
        Approx(-4744250033246255526139030909830, 7461155860587739567725712615023, 9289));
    Row(12, Approx(-4744250033246255526139030909830, 7461155860587739567725712615023, 9289),
        Approx(3715016937236023411214874932551, 8023428463567762463918204232721, 13973));
    Row(13, Approx(3715016937236023411214874932551, 8023428463567762463918204232721, 13973),
        Approx(8758714468301890590429299290127, 1208997939079715436065954149739, 20999));
    Row(14, Approx(8758714468301890590429299290127, 1208997939079715436065954149739, 20999),
        Approx(5749690310092274239132843823832, -6716979715018564547875216052028, 31538));
    Row(15, Approx(5749690310092274239132843823832, -6716979715018564547875216052028, 31538),
        Approx(-2545572603160780480345284794443, -8467397196067816265250558991341, 47347));
    Row(16, Approx(-2545572603160780480345284794443, -8467397196067816265250558991341, 47347),
        Approx(-8500447804577339558055105994867, -2432928744455159198819114861034, 71060));
  }

  lemma Rows17()
    requires At(17) == Approx(-8500447804577339558055105994867, -2432928744455159198819114861034, 71060)
    ensures At(25) == Approx(-1170222673819424449120830089456, 8763979350022385021776372402219, 1823150)
    ensures forall n :: 17 <= n < 25 ==> Told(n)
  {
    hide At, Told;
    Row(17, Approx(-8500447804577339558055105994867, -2432928744455159198819114861034, 71060),
        Approx(-6640050496289024457318792523716, 5838363174783815151386882070362, 106630));
    Row(18, Approx(-6640050496289024457318792523716, 5838363174783815151386882070362, 106630),
        Approx(1325178616125648714321065430487, 8741890916117815518077340211793, 159985));
    Row(19, Approx(1325178616125648714321065430487, 8741890916117815518077340211793, 159985),
        Approx(8072044620248701175872878707773, 3608164464468585019513700477138, 240017));
    Row(20, Approx(8072044620248701175872878707773, 3608164464468585019513700477138, 240017),
        Approx(7397510026656122193780504262276, -4842891755910099588774177170607, 360065));
    Row(21, Approx(7397510026656122193780504262276, -4842891755910099588774177170607, 360065),
        Approx(-78261170078728120526670571374, -8841415630044646741460419627144, 540137));
    Row(22, Approx(-78261170078728120526670571374, -8841415630044646741460419627144, 540137),
        Approx(-7482079407963073123909487442227, -4711182748193368318851797425379, 810245));
    Row(23, Approx(-7482079407963073123909487442227, -4711182748193368318851797425379, 810245),
        Approx(-8006908343543220012537881546763, 3750489825614494045399700099073, 1215407));
    Row(24, Approx(-8006908343543220012537881546763, 3750489825614494045399700099073, 1215407),
        Approx(-1170222673819424449120830089456, 8763979350022385021776372402219, 1823150));
  }

  lemma Rows25()
    requires At(25) == Approx(-1170222673819424449120830089456, 8763979350022385021776372402219, 1823150)
    ensures At(33) == Approx(8840982681786004309488856997158, -117389838997336429721855966018, 46727300)
    ensures forall n :: 25 <= n < 33 ==> Told(n)
  {
    hide At, Told;
    Row(25, Approx(-1170222673819424449120830089456, 8763979350022385021776372402219, 1823150),
        Approx(6742360325455590082579674986734, 5719906677181215924798953157335, 2734765));
    Row(26, Approx(6742360325455590082579674986734, 5719906677181215924798953157335, 2734765),
        Approx(8456048335494457017739313463184, -2583021815959224955457548039812, 4102187));
    Row(27, Approx(8456048335494457017739313463184, -2583021815959224955457548039812, 4102187),
        Approx(2395284502944609624845915524699, -8511131963722173642388015508839, 6153320));
    Row(28, Approx(2395284502944609624845915524699, -8511131963722173642388015508839, 6153320),
        Approx(-5867692855192070059518093989788, -6614146635135012037223125862868, 9230020));
    Row(29, Approx(-5867692855192070059518093989788, -6614146635135012037223125862868, 9230020),
        Approx(-8735940462517177400808019366415, 1363854607095284881210283863210, 13845070));
    Row(30, Approx(-8735940462517177400808019366415, 1363854607095284881210283863210, 13845070),
        Approx(-3572404696457557812705009118978, 8087934213299948295481593080873, 20767645));
    Row(31, Approx(-3572404696457557812705009118978, 8087934213299948295481593080873, 20767645),
        Approx(4875583472536796951808584019458, 7376004403216276404231935098191, 31151507));
    Row(32, Approx(4875583472536796951808584019458, 7376004403216276404231935098191, 31151507),
        Approx(8840982681786004309488856997158, -117389838997336429721855966018, 46727300));
  }

  lemma Rows33()
    requires At(33) == Approx(8840982681786004309488856997158, -117389838997336429721855966018, 46727300)
    ensures At(41) == Approx(-1402503884383036159745403424056, -8729818898936584723677484302249, 1197571555)
    ensures forall n :: 33 <= n < 41 ==> Told(n)
  {
    hide At, Told;
    Row(33, Approx(8840982681786004309488856997158, -117389838997336429721855966018, 46727300),
        Approx(4678023185681738752329494472656, -7502856404607777491216091864094, 70090990));
    Row(34, Approx(4678023185681738752329494472656, -7502856404607777491216091864094, 70090990),
        Approx(-3785889253529075968080409274790, -7990231393016908446732493888894, 105136525));
    Row(35, Approx(-3785889253529075968080409274790, -7990231393016908446732493888894, 105136525),
        Approx(-8769072572568078665817347296971, -1131424487526290031274562354140, 157704827));
    Row(36, Approx(-8769072572568078665817347296971, -1131424487526290031274562354140, 157704827),
        Approx(-5690011009038109747079577599931, 6767608873964642873017011726421, 236557280));
    Row(37, Approx(-5690011009038109747079577599931, 6767608873964642873017011726421, 236557280),
        Approx(2620420435371296508648096208994, 8444533847159852207507861582517, 354835960));
    Row(38, Approx(2620420435371296508648096208994, 8444533847159852207507861582517, 354835960),
        Approx(8521649416188321928471368471800, 2357593345239399284646656313469, 532253980));
    Row(39, Approx(8521649416188321928471368471800, 2357593345239399284646656313469, 532253980),
        Approx(6588113223361577427341327263461, -5896907605695394945923060809493, 798381010));
    Row(40, Approx(6588113223361577427341327263461, -5896907605695394945923060809493, 798381010),
        Approx(-1402503884383036159745403424056, -8729818898936584723677484302249, 1197571555));
  }

  lemma Rows41()
    requires At(41) == Approx(-1402503884383036159745403424056, -8729818898936584723677484302249, 1197571555)
    ensures At(49) == Approx(-8432853956597117195731132592716, 2657767728874029194257712541343, 30692451070)
    ensures forall n :: 41 <= n < 49 ==> Told(n)
  {
    hide At, Told;
    Row(41, Approx(-1402503884383036159745403424056, -8729818898936584723677484302249, 1197571555),
        Approx(-8103665388803931959042916391078, -3536574956118007627906729352467, 1796357372));
    Row(42, Approx(-8103665388803931959042916391078, -3536574956118007627906729352467, 1796357372),
        Approx(-7354354306726162662418696352442, 4908179691604435611003274062805, 2694536098));
    Row(43, Approx(-7354354306726162662418696352442, 4908179691604435611003274062805, 2694536098),
        Approx(156516208613072439408175530615, 8840376566096110506450015872889, 4041804187));
    Row(44, Approx(156516208613072439408175530615, 8840376566096110506450015872889, 4041804187),
        Approx(7523486443564926320935153997964, 4644771995204355132953127341571, 6062706320));
    Row(45, Approx(7523486443564926320935153997964, 4644771995204355132953127341571, 6062706320),
        Approx(7973397938638566567277156867012, -3821214527614764363086716856882, 9094059520));
    Row(46, Approx(7973397938638566567277156867012, -3821214527614764363086716856882, 9094059520),
        Approx(1092604140136452701806208188822, -8773994036178538008032017423251, 13641089320));
    Row(47, Approx(1092604140136452701806208188822, -8773994036178538008032017423251, 13641089320),
        Approx(-6792724866004963649760106197221, -5660003891226375997543976498954, 20461634020));
    Row(48, Approx(-6792724866004963649760106197221, -5660003891226375997543976498954, 20461634020),
        Approx(-8432853956597117195731132592716, 2657767728874029194257712541343, 30692451070));
  }

  lemma Rows49()
    requires At(49) == Approx(-8432853956597117195731132592716, 2657767728874029194257712541343, 30692451070)
    ensures At(57) == Approx(3856464955958997941074906776889, 7956408310123358254092059903622, 786613953013)
    ensures forall n :: 49 <= n < 57 ==> Told(n)
  {
    hide At, Told;
    Row(49, Approx(-8432853956597117195731132592716, 2657767728874029194257712541343, 30692451070),
        Approx(-2319856009592412006184410926436, 8531999955971509504257503819023, 46038676645));
    Row(50, Approx(-2319856009592412006184410926436, 8531999955971509504257503819023, 46038676645),
        Approx(5926006854067434279672067550181, 6561950770882517065985580388820, 69058015007));
    Row(51, Approx(5926006854067434279672067550181, 6561950770882517065985580388820, 69058015007),
        Approx(8723526345278482570882307965793, -1441125690969427618684198484954, 103587022550));
    Row(52, Approx(8723526345278482570882307965793, -1441125690969427618684198484954, 103587022550),
        Approx(3500675945243425112487380611240, -8119237838635712819991904193728, 155380533865));
    Row(53, Approx(3500675945243425112487380611240, -8119237838635712819991904193728, 155380533865),
        Approx(-4940679774654178170506908489436, -7332560161244025450723551484791, 233070800837));
    Row(54, Approx(-4940679774654178170506908489436, -7332560161244025450723551484791, 233070800837),
        Approx(-8839597294846891885972114755975, 195639512561702170567197788403, 349606201295));
    Row(55, Approx(-8839597294846891885972114755975, 195639512561702170567197788403, 349606201295),
        Approx(-4611429828048913440619081908832, 7543969120756038587981017949378, 524409301982));
    Row(56, Approx(-4611429828048913440619081908832, 7543969120756038587981017949378, 524409301982),
        Approx(3856464955958997941074906776889, 7956408310123358254092059903622, 786613953013));
  }

  lemma Rows57()
    requires At(57) == Approx(3856464955958997941074906776889, 7956408310123358254092059903622, 786613953013)
    ensures At(65) == Approx(7310622393649582250729207765458, -4973083085110193668142144130119, 20160055258664)
    ensures forall n :: 57 <= n < 65 ==> Told(n)
  {
    hide At, Told;
    Row(57, Approx(3856464955958997941074906776889, 7956408310123358254092059903622, 786613953013),
        Approx(8778743644457554380790854351882, 1053762392020120133826324997026, 1179920929559));
    Row(58, Approx(8778743644457554380790854351882, 1053762392020120133826324997026, 1179920929559),
        Approx(5629885911492388325402685027694, -6817707809632163254293352032868, 1769881394378));
    Row(59, Approx(5629885911492388325402685027694, -6817707809632163254293352032868, 1769881394378),
        Approx(-2695062964949772448045499992355, -8421008892579084013040772938870, 2654822091607));
    Row(60, Approx(-2695062964949772448045499992355, -8421008892579084013040772938870, 2654822091607),
        Approx(-8542183380336763252750089357695, -2282073235161014280244567586485, 3982233137450));
    Row(61, Approx(-8542183380336763252750089357695, -2282073235161014280244567586485, 3982233137450),
        Approx(-6535659790139134606939911824650, 5954990030344161062610813102389, 5973349706215));
    Row(62, Approx(-6535659790139134606939911824650, 5954990030344161062610813102389, 5973349706215),
        Approx(1479719270373050168600176703088, 8717062924794481335221060655968, 8960024559362));
    Row(63, Approx(1479719270373050168600176703088, 8717062924794481335221060655968, 8960024559362),
        Approx(8134651257779295177319299780840, 3464708366984095858982546302414, 13440036839083));
    Row(64, Approx(8134651257779295177319299780840, 3464708366984095858982546302414, 13440036839083),
        Approx(7310622393649582250729207765458, -4973083085110193668142144130119, 20160055258664));
  }

  lemma AllTold()
    ensures forall n :: 1 <= n <= 64 ==> Told(n)
  {
    assert At(1) == FIRST;
    hide Told, At;
    Rows1();
    Rows9();
    Rows17();
    Rows25();
    Rows33();
    Rows41();
    Rows49();
    Rows57();
  }

  // ---- how far they are from the truth ------------------------------------------------------------------------------

  /** A number is within e of the integer a, both times 29!. */
  predicate Near(x: real, a: int, e: nat) {
    -(e as real) <= x * D as real - a as real <= e as real
  }

  lemma ProductBound(x: real, y: real, a: real, b: real)
    requires -a <= x <= a && -b <= y <= b
    ensures -(a * b) <= x * y <= a * b
  {
    if x >= 0.0 {
      assert x * y <= x * b && x * y >= x * -b && x * b <= a * b;
    } else {
      assert x * y <= x * -b && x * y >= x * b && -x * b <= a * b;
    }
  }

  function Product(x: real, y: real): real {
    x * y
  }

  /** The same for a product, which is scaled twice. */
  predicate NearSquare(x: real, m: int, error: real) {
    -error <= x * D as real * D as real - m as real <= error
  }

  function Error(e: nat, b: int, d: nat): real {
    e as real * (b + d) as real + D as real * d as real
  }

  lemma Expand(u: real, v: real, a: real, b: real)
    ensures u * v - a * b == (u - a) * v + a * (v - b)
  {
  }

  lemma RealProductError(u: real, v: real, a: real, b: real, e: real, d: real, r: real)
    requires -e <= u - a <= e && -d <= v - b <= d && -r <= a <= r && 0.0 <= b && 0.0 <= d
    ensures -(e * (b + d) + r * d) <= u * v - a * b <= e * (b + d) + r * d
  {
    Expand(u, v, a, b);
    ProductBound(u - a, v, e, b + d);
    ProductBound(a, v - b, r, d);
  }

  /** What an error e in the first factor and d in the second make of a product. */
  lemma ProductError(x: real, a: int, e: nat, y: real, b: int, d: nat)
    requires Near(x, a, e) && Near(y, b, d) && Abs(a) <= D && 0 <= b
    ensures NearSquare(Product(x, y), a * b, Error(e, b, d))
  {
    Scaled(x, y);
    ProductCast(a, b);
    var r := D as real;
    var u, v, p, q := x * r, y * r, a as real, b as real;
    RealProductError(u, v, p, q, e as real, d as real, r);
    assert Error(e, b, d) == e as real * (q + d as real) + r * d as real;
  }

  lemma ProductCast(a: int, b: int)
    ensures (a * b) as real == a as real * b as real
  {
  }

  /** An integer quotient by 29! of what is nearly a number times the square of 29!. */
  lemma QuotientNear(x: real, m: int, error: real, e: nat)
    requires NearSquare(x, m, error)
    requires error <= e as real * 1.5 * D as real + 30.0 * D as real
    ensures Near(x, m / D, 3 * e / 2 + 40)
  {
    var q, r := m / D, D as real;
    assert D * q <= m < D * q + D;
    var far := x * r - q as real;
    assert far * r == x * r * r - q as real * r;
    var bound := e as real * 1.5 + 31.0;
    assert -(bound * r) <= far * r <= bound * r;
    assert -bound <= far <= bound;
    assert bound <= (3 * e / 2 + 40) as real;
  }

  /** The sums of two products, one error to each. */
  lemma SumsNear(u: real, v: real, m: int, n: int, e: nat, f: real, g: real)
    requires NearSquare(u, m, f) && NearSquare(v, n, g)
    requires f + g <= e as real * 1.5 * D as real + 30.0 * D as real
    ensures Near(u + v, (m + n) / D, 3 * e / 2 + 40) && Near(u - v, (m - n) / D, 3 * e / 2 + 40)
  {
    hide Near;
    QuotientNear(u + v, m + n, f + g, e);
    QuotientNear(u - v, m - n, f + g, e);
  }

  lemma FollowingIsNear(x: real, y: real, x1: real, y1: real, p: Approx)
    requires Near(x, p.s, p.e) && Near(y, p.c, p.e) && Abs(p.s) <= D && Abs(p.c) <= D
    requires Near(x1, FIRST.s, 1) && Near(y1, FIRST.c, 29)
    ensures Near(Product(x, y1) + Product(y, x1), Following(p).s, Following(p).e)
    ensures Near(Product(y, y1) - Product(x, x1), Following(p).c, Following(p).e)
  {
    hide Near, NearSquare, Error, Following, Product, Abs;
    FollowingParts(p);
    ProductError(x, p.s, p.e, y1, FIRST.c, 29);
    ProductError(y, p.c, p.e, x1, FIRST.s, 1);
    ProductError(y, p.c, p.e, y1, FIRST.c, 29);
    ProductError(x, p.s, p.e, x1, FIRST.s, 1);
    ErrorBound(p.e);
    var large, small := Error(p.e, FIRST.c, 29), Error(p.e, FIRST.s, 1);
    SumsNear(Product(x, y1), Product(y, x1), p.s * FIRST.c, p.c * FIRST.s, p.e, large, small);
    SumsNear(Product(y, y1), Product(x, x1), p.c * FIRST.c, p.s * FIRST.s, p.e, large, small);
  }

  lemma FollowingParts(p: Approx)
    ensures Following(p).s == (p.s * FIRST.c + p.c * FIRST.s) / D
    ensures Following(p).c == (p.c * FIRST.c - p.s * FIRST.s) / D
    ensures Following(p).e == 3 * p.e / 2 + 40 && FIRST.s >= 0 && FIRST.c >= 0
  {
  }

  lemma Scaled(x: real, y: real)
    ensures (x * D as real) * (y * D as real) == x * y * D as real * D as real
  {
  }

  lemma ErrorBound(e: nat)
    ensures Error(e, FIRST.c, 29) + Error(e, FIRST.s, 1) <= e as real * 1.5 * D as real + 30.0 * D as real
  {
    var w := (FIRST.s + FIRST.c + 30) as real;
    assert w <= 1.5 * D as real;
    ProductBound(e as real, w, e as real, 1.5 * D as real);
  }

  lemma FirstIsNear(s: nat -> real, c: nat -> real)
    requires SineAndCosine(s, c)
    ensures Near(s(1), FIRST.s, 1) && Near(c(1), FIRST.c, 29)
  {
    FirstValues();
    hide SinSeries, CosSeries, Over;
  }

  lemma InRange(n: nat)
    requires 1 <= n <= 64
    ensures Abs(At(n).s) <= D && Abs(At(n).c) <= D
  {
    AllTold();
    assert Told(n);
    hide T, At, Abs;
  }

  lemma Addition(s: nat -> real, c: nat -> real, n: nat)
    requires SineAndCosine(s, c) && n >= 1
    ensures s(n + 1) == Product(s(n), c(1)) + Product(c(n), s(1))
    ensures c(n + 1) == Product(c(n), c(1)) - Product(s(n), s(1))
  {
  }

  lemma {:induction false} AtIsNear(s: nat -> real, c: nat -> real, n: nat)
    requires SineAndCosine(s, c) && 1 <= n <= 64
    ensures Near(s(n), At(n).s, At(n).e) && Near(c(n), At(n).c, At(n).e)
  {
    hide *;
    FirstIsNear(s, c);
    AtParts(n);
    NearWider(s(1), FIRST.s, 1, 29);
    if n == 1 {
      assert At(n) == FIRST && FIRST.e == 29;
      assert Near(s(n), FIRST.s, 29) && Near(c(n), FIRST.c, 29);
    } else {
      var m := n - 1;
      AtIsNear(s, c, m);
      InRange(m);
      Addition(s, c, m);
      assert s(m + 1) == s(n) && c(m + 1) == c(n);
      FollowingIsNear(s(m), c(m), s(1), c(1), At(m));
    }
  }

  lemma AtParts(n: nat)
    requires n >= 1
    ensures At(n) == if n == 1 then FIRST else Following(At(n - 1))
    ensures FIRST.e == 29
  {
    hide Following;
  }

  lemma NearWider(x: real, a: int, e: nat, f: nat)
    requires Near(x, a, e) && e <= f
    ensures Near(x, a, f)
  {
  }

  /** The constants are 4294967296 times abs(sin(i + 1)), rounded down, as section 3.4 has it. */
  lemma ConstantsAreSines(s: nat -> real, c: nat -> real, i: nat)
    requires SineAndCosine(s, c) && i < 64
    ensures var x := s(i + 1); T(i) as real <= WORD as real * (if x < 0.0 then -x else x) < (T(i) + 1) as real
  {
    AtIsNear(s, c, i + 1);
    AllTold();
    assert Told(i + 1);
    hide T, At, Told, SineAndCosine;
    TellsSine(s(i + 1), At(i + 1), T(i));
  }

  lemma TellsSine(x: real, p: Approx, t: nat)
    requires Near(x, p.s, p.e) && Tells(p, t)
    ensures t as real <= WORD as real * (if x < 0.0 then -x else x) < (t + 1) as real
  {
    var r, w, y := D as real, WORD as real, if x < 0.0 then -x else x;
    assert w * Abs(p.s) as real - w * p.e as real <= w * y * r <= w * Abs(p.s) as real + w * p.e as real;
    assert t as real * r <= w * y * r < (t + 1) as real * r;
  }
}
