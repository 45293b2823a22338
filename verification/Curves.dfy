/**
 The curve points whose bytes are exchanged: the BN254 base field, its quadratic extension, and
 the equations of the two groups.
 */
module Curves {
  import opened NumberTheory
  import opened Field

  /** The order of the BN254 base field, over which point coordinates live. */
  const Q: int := 21888242871839275222246405745257275088696311157297823662689037894645226208583

  type Fq = x: nat | x < Q witness 0

  /** Both orders are those of the Barreto-Naehrig curve with the parameter of BN254. */
  lemma CurveOrders(u: int)
    requires u == 4965661367192848881
    ensures R == 36 * (u * u * u * u) + 36 * (u * u * u) + 18 * (u * u) + 6 * u + 1
    ensures Q == 36 * (u * u * u * u) + 36 * (u * u * u) + 24 * (u * u) + 6 * u + 1
  {
  }

  datatype Fq2 = Fq2(c0: Fq, c1: Fq)

  datatype G1 = G1(x: Fq, y: Fq, infinity: bool)

  datatype G2 = G2(x: Fq2, y: Fq2, infinity: bool)

  function MulQ(a: Fq, b: Fq): Fq {
    (a * b) % Q
  }

  function AddQ(a: Fq, b: Fq): Fq {
    (a + b) % Q
  }

  function SubQ(a: Fq, b: Fq): Fq {
    (a - b) % Q
  }

  /** y^2 = x^3 + 3. */
  predicate OnG1(p: G1) {
    p.infinity || MulQ(p.y, p.y) == AddQ(MulQ(MulQ(p.x, p.x), p.x), 3)
  }

  /** Products in Fq2, whose u satisfies u^2 = -1. */
  function Mul2(a: Fq2, b: Fq2): Fq2 {
    Fq2(SubQ(MulQ(a.c0, b.c0), MulQ(a.c1, b.c1)), AddQ(MulQ(a.c0, b.c1), MulQ(a.c1, b.c0)))
  }

  function Sub2(a: Fq2, b: Fq2): Fq2 {
    Fq2(SubQ(a.c0, b.c0), SubQ(a.c1, b.c1))
  }

  /** (9 + u)(y^2 - x^3) = 3, the twist with its denominator cleared. */
  predicate OnG2(p: G2) {
    p.infinity || Mul2(Fq2(9, 1), Sub2(Mul2(p.y, p.y), Mul2(Mul2(p.x, p.x), p.x))) == Fq2(3, 0)
  }

  // The coordinates of the generator of the twist, and the values on the way of its equation.

  const X2: Fq2 := Fq2(
      10857046999023057135944570762232829481370756359578518086990519993285655852781,
      11559732032986387107991004021392285783925812861821192530917403151452391805634)

  const Y2: Fq2 := Fq2(
      8495653923123431417604973247489272438418190587263600148770280649306958101930,
      4082367875863433681332203403145435568316851327593401208105741076214120093531)

  const X2_SQUARED: Fq2 := Fq2(
      21740980388926906057426892996120422348616989628855161897682971020692097960281,
      1837384903404616869280368109057824469904033017901941306968221631236329083166)

  const X2_CUBED: Fq2 := Fq2(
      17325333118563567127851667797750321471171453547099705001540310225555311263340,
      18731819480823831763230454102224971938956392180592755584362846046169105903289)

  const Y2_SQUARED: Fq2 := Fq2(
      14922964998483646676629501313514766888265760859103602404415903627362542533130,
      18998749271943822924477361489362255781501469145925655872932224557079413539979)

  /** A product modulo the order from its quotient and remainder. */
  lemma MulIs(a: Fq, b: Fq, q: int, m: Fq)
    requires a * b == q * Q + m
    ensures MulQ(a, b) == m
  {
    RemainderIsUnique(a * b, Q, q, m);
  }

  lemma GeneratorXSquared()
    ensures Mul2(X2, X2) == X2_SQUARED
  {
    hide MulQ;
    MulIs(X2.c0, X2.c0,
          5385332675134487022680628327230921037550976199579242516203909647961071273989,
          19174692470794073501570615532739633251048553737626673800995753633084288986374);
    MulIs(X2.c0, X2.c1,
          5733879814524343058947424534617623383201601818941629397518963068789658923037,
          918692451702308434640184054528912234952016508950970653484110815618164541583);
    MulIs(X2.c1, X2.c0,
          5733879814524343058947424534617623383201601818941629397518963068789658923037,
          918692451702308434640184054528912234952016508950970653484110815618164541583);
    MulIs(X2.c1, X2.c1,
          6104985468996801286683808389985260421941867204770613002120922230293252898160,
          19321954953706442666390128281876485991127875266069335566001820507037417234676);
  }

  lemma GeneratorXCubed()
    ensures Mul2(X2_SQUARED, X2) == X2_CUBED
  {
    hide MulQ;
    MulIs(X2_SQUARED.c0, X2.c0,
          10784001587953106263396887411494868944941215928889218596767393927949293155764,
          6864454202435934381576974472279126450834141727394557143782817520662748669049);
    MulIs(X2_SQUARED.c0, X2.c1,
          11481959008858928753360095750082620989934393021825158038068716669064577269062,
          19229704987212975105856402966955730991163167479987738917314666105611479264008);
    MulIs(X2_SQUARED.c1, X2.c0,
          911383082157982331264115807875350537581038184589553640193896383026766505154,
          21390357365450131879620456880526516036489535857902840329737217835202852847864);
    MulIs(X2_SQUARED.c1, X2.c1,
          970369218268235169763175196505065029465424356001560495914608053902079629144,
          11427363955711642475971712419786080068358999337592675804931545189752663614292);
  }

  lemma GeneratorYSquared()
    ensures Mul2(Y2, Y2) == Y2_SQUARED
  {
    hide MulQ;
    MulIs(Y2.c0, Y2.c0,
          3297484224937128089932157561168563625710495241656659433689708637711958615347,
          9595080561144403483932549548344263701085288784222657890434432843120982801599);
    MulIs(Y2.c0, Y2.c1,
          1584521190818542815984670127737828673732998682024077771163403595839067355603,
          20443496071891549073361883617309765435098890151611739767810631225862319874281);
    MulIs(Y2.c1, Y2.c0,
          1584521190818542815984670127737828673732998682024077771163403595839067355603,
          20443496071891549073361883617309765435098890151611739767810631225862319874281);
    MulIs(Y2.c1, Y2.c1,
          761400884093959146167046342915603643640296478820675770763445604591897054523,
          16560358434500032029549453980086771901515839082416879148707567110403666477052);
  }

  lemma GeneratorTwist()
    ensures Mul2(Fq2(9, 1), Sub2(Y2_SQUARED, X2_CUBED)) == Fq2(3, 0)
  {
  }

  /** The generators of both groups satisfy the equations. */
  lemma GeneratorsOnCurves()
    ensures OnG1(G1(1, 2, false)) && OnG2(G2(X2, Y2, false))
  {
    hide Mul2, Sub2, X2, Y2, X2_SQUARED, Y2_SQUARED, X2_CUBED;
    GeneratorXSquared();
    GeneratorXCubed();
    GeneratorYSquared();
    GeneratorTwist();
  }
}
