/** The 512-bit Integer (integers.rs): a signed 512-bit integer with
    factorial, conversions and the arithmetic it delegates to the underlying
    integer type. */
module Integers {
  import opened Numerics
  import opened Outcomes
  import opened Errors
  import opened Bitseqs

  datatype Integer = Integer(value: I512)

  /** Integer::ZERO and Integer::ONE */
  const Zero: Integer := Integer(0)
  const One: Integer := Integer(1)

  /** MAX_FACTORIAL: the largest argument whose factorial fits. */
  const MaxFactorial: Integer := Integer(97)

  /** The digits BITSEQ_MAX_VALUE is built from: eight 64-bit digits, least
      significant first. */
  const BitseqMaxValueDigits: seq<nat> :=
    [18446744073709551615, 18446744073709551615, 0, 0, 0, 0, 0, 0]

  /** The number that 64-bit digits spell, least significant first. */
  function FromDigits(ds: seq<nat>): nat
  {
    if ds == [] then 0 else ds[0] + TwoTo64 * FromDigits(ds[1..])
  }

  lemma {:induction false} FromDigitsOfZeros(ds: seq<nat>)
    requires forall k :: 0 <= k < |ds| ==> ds[k] == 0
    ensures FromDigits(ds) == 0
  {
    if ds != [] {
      FromDigitsOfZeros(ds[1..]);
    }
  }

  /** BITSEQ_MAX_VALUE is u128::MAX, 2^128 - 1. */
  function BitseqMaxValue(): (m: Integer)
    ensures m.value == U128Max == Pow2(128) - 1
  {
    BitseqMaxValueSpelled();
    Integer(FromDigits(BitseqMaxValueDigits))
  }

  lemma BitseqMaxValueSpelled()
    ensures FromDigits(BitseqMaxValueDigits) == U128Max == Pow2(128) - 1
  {
    var ds := BitseqMaxValueDigits;
    FromDigitsOfZeros(ds[2..]);
    assert ds[1..][1..] == ds[2..];
    assert FromDigits(ds[1..]) == ds[1];
    assert FromDigits(ds) == ds[0] + TwoTo64 * ds[1];
    Pow2To128();
  }

  /** n! */
  function Fact(n: nat): (f: nat)
    ensures f >= 1
  {
    if n == 0 then 1 else n * Fact(n - 1)
  }

  lemma {:induction false} FactMonotone(a: nat, b: nat)
    requires a <= b
    ensures Fact(a) <= Fact(b)
    decreases b
  {
    if a < b {
      FactMonotone(a, b - 1);
    }
  }

  /** 97! fits a signed 512-bit integer and 98! does not: MAX_FACTORIAL is
      the ceiling of the factorial loop. */
  lemma FactorialCeiling()
    ensures Fact(97) <= I512Max
    ensures Fact(98) > I512Max
  {
    assert Fact(1) == 1;
    assert Fact(2) == 2;
    assert Fact(3) == 6;
    assert Fact(4) == 24;
    assert Fact(5) == 120;
    assert Fact(6) == 720;
    assert Fact(7) == 5040;
    assert Fact(8) == 40320;
    assert Fact(9) == 362880;
    assert Fact(10) == 3628800;
    assert Fact(11) == 39916800;
    assert Fact(12) == 479001600;
    assert Fact(13) == 6227020800;
    assert Fact(14) == 87178291200;
    assert Fact(15) == 1307674368000;
    assert Fact(16) == 20922789888000;
    assert Fact(17) == 355687428096000;
    assert Fact(18) == 6402373705728000;
    assert Fact(19) == 121645100408832000;
    assert Fact(20) == 2432902008176640000;
    assert Fact(21) == 51090942171709440000;
    assert Fact(22) == 1124000727777607680000;
    assert Fact(23) == 25852016738884976640000;
    assert Fact(24) == 620448401733239439360000;
    assert Fact(25) == 15511210043330985984000000;
    assert Fact(26) == 403291461126605635584000000;
    assert Fact(27) == 10888869450418352160768000000;
    assert Fact(28) == 304888344611713860501504000000;
    assert Fact(29) == 8841761993739701954543616000000;
    assert Fact(30) == 265252859812191058636308480000000;
    assert Fact(31) == 8222838654177922817725562880000000;
    assert Fact(32) == 263130836933693530167218012160000000;
    assert Fact(33) == 8683317618811886495518194401280000000;
    assert Fact(34) == 295232799039604140847618609643520000000;
    assert Fact(35) == 10333147966386144929666651337523200000000;
    assert Fact(36) == 371993326789901217467999448150835200000000;
    assert Fact(37) == 13763753091226345046315979581580902400000000;
    assert Fact(38) == 523022617466601111760007224100074291200000000;
    assert Fact(39) == 20397882081197443358640281739902897356800000000;
    assert Fact(40) == 815915283247897734345611269596115894272000000000;
    assert Fact(41) == 33452526613163807108170062053440751665152000000000;
    assert Fact(42) == 1405006117752879898543142606244511569936384000000000;
    assert Fact(43) == 60415263063373835637355132068513997507264512000000000;
    assert Fact(44) == 2658271574788448768043625811014615890319638528000000000;
    assert Fact(45) == 119622220865480194561963161495657715064383733760000000000;
    assert Fact(46) == 5502622159812088949850305428800254892961651752960000000000;
    assert Fact(47) == 258623241511168180642964355153611979969197632389120000000000;
    assert Fact(48) == 12413915592536072670862289047373375038521486354677760000000000;
    assert Fact(49) == 608281864034267560872252163321295376887552831379210240000000000;
    assert Fact(50) == 30414093201713378043612608166064768844377641568960512000000000000;
    assert Fact(51) == 1551118753287382280224243016469303211063259720016986112000000000000;
    assert Fact(52) == 80658175170943878571660636856403766975289505440883277824000000000000;
    assert Fact(53) == 4274883284060025564298013753389399649690343788366813724672000000000000;
    assert Fact(54) == 230843697339241380472092742683027581083278564571807941132288000000000000;
    assert Fact(55) == 12696403353658275925965100847566516959580321051449436762275840000000000000;
    assert Fact(56) == 710998587804863451854045647463724949736497978881168458687447040000000000000;
    assert Fact(57) == 40526919504877216755680601905432322134980384796226602145184481280000000000000;
    assert Fact(58) == 2350561331282878571829474910515074683828862318181142924420699914240000000000000;
    assert Fact(59) == 138683118545689835737939019720389406345902876772687432540821294940160000000000000;
    assert Fact(60) == 8320987112741390144276341183223364380754172606361245952449277696409600000000000000;
    assert Fact(61) == 507580213877224798800856812176625227226004528988036003099405939480985600000000000000;
    assert Fact(62) == 31469973260387937525653122354950764088012280797258232192163168247821107200000000000000;
    assert Fact(63) == 1982608315404440064116146708361898137544773690227268628106279599612729753600000000000000;
    assert Fact(64) == 126886932185884164103433389335161480802865516174545192198801894375214704230400000000000000;
    assert Fact(65) == 8247650592082470666723170306785496252186258551345437492922123134388955774976000000000000000;
    assert Fact(66) == 544344939077443064003729240247842752644293064388798874532860126869671081148416000000000000000;
    assert Fact(67) == 36471110918188685288249859096605464427167635314049524593701628500267962436943872000000000000000;
    assert Fact(68) == 2480035542436830599600990418569171581047399201355367672371710738018221445712183296000000000000000;
    assert Fact(69) == 171122452428141311372468338881272839092270544893520369393648040923257279754140647424000000000000000;
    assert Fact(70) == 11978571669969891796072783721689098736458938142546425857555362864628009582789845319680000000000000000;
    assert Fact(71) == 850478588567862317521167644239926010288584608120796235886430763388588680378079017697280000000000000000;
    assert Fact(72) == 61234458376886086861524070385274672740778091784697328983823014963978384987221689274204160000000000000000;
    assert Fact(73) == 4470115461512684340891257138125051110076800700282905015819080092370422104067183317016903680000000000000000;
    assert Fact(74) == 330788544151938641225953028221253782145683251820934971170611926835411235700971565459250872320000000000000000;
    assert Fact(75) == 24809140811395398091946477116594033660926243886570122837795894512655842677572867409443815424000000000000000000;
    assert Fact(76) == 1885494701666050254987932260861146558230394535379329335672487982961844043495537923117729972224000000000000000000;
    assert Fact(77) == 145183092028285869634070784086308284983740379224208358846781574688061991349156420080065207861248000000000000000000;
    assert Fact(78) == 11324281178206297831457521158732046228731749579488251990048962825668835325234200766245086213177344000000000000000000;
    assert Fact(79) == 894618213078297528685144171539831652069808216779571907213868063227837990693501860533361810841010176000000000000000000;
    assert Fact(80) == 71569457046263802294811533723186532165584657342365752577109445058227039255480148842668944867280814080000000000000000000;
    assert Fact(81) == 5797126020747367985879734231578109105412357244731625958745865049716390179693892056256184534249745940480000000000000000000;
    assert Fact(82) == 475364333701284174842138206989404946643813294067993328617160934076743994734899148613007131808479167119360000000000000000000;
    assert Fact(83) == 39455239697206586511897471180120610571436503407643446275224357528369751562996629334879591940103770870906880000000000000000000;
    assert Fact(84) == 3314240134565353266999387579130131288000666286242049487118846032383059131291716864129885722968716753156177920000000000000000000;
    assert Fact(85) == 281710411438055027694947944226061159480056634330574206405101912752560026159795933451040286452340924018275123200000000000000000000;
    assert Fact(86) == 24227095383672732381765523203441259715284870552429381750838764496720162249742450276789464634901319465571660595200000000000000000000;
    assert Fact(87) == 2107757298379527717213600518699389595229783738061356212322972511214654115727593174080683423236414793504734471782400000000000000000000;
    assert Fact(88) == 185482642257398439114796845645546284380220968949399346684421580986889562184028199319100141244804501828416633516851200000000000000000000;
    assert Fact(89) == 16507955160908461081216919262453619309839666236496541854913520707833171034378509739399912570787600662729080382999756800000000000000000000;
    assert Fact(90) == 1485715964481761497309522733620825737885569961284688766942216863704985393094065876545992131370884059645617234469978112000000000000000000000;
    assert Fact(91) == 135200152767840296255166568759495142147586866476906677791741734597153670771559994765685283954750449427751168336768008192000000000000000000000;
    assert Fact(92) == 12438414054641307255475324325873553077577991715875414356840239582938137710983519518443046123837041347353107486982656753664000000000000000000000;
    assert Fact(93) == 1156772507081641574759205162306240436214753229576413535186142281213246807121467315215203289516844845303838996289387078090752000000000000000000000;
    assert Fact(94) == 108736615665674308027365285256786601004186803580182872307497374434045199869417927630229109214583415458560865651202385340530688000000000000000000000;
    assert Fact(95) == 10329978488239059262599702099394727095397746340117372869212250571234293987594703124871765375385424468563282236864226607350415360000000000000000000000;
    assert Fact(96) == 991677934870949689209571401541893801158183648651267795444376054838492222809091499987689476037000748982075094738965754305639874560000000000000000000000;
    assert Fact(97) == 96192759682482119853328425949563698712343813919172976158104477319333745612481875498805879175589072651261284189679678167647067832320000000000000000000000;
    assert Fact(98) == 98 * Fact(97);
  }

  const FactorialNegativeMsg: string := "Factorial undefined for values < 0"
  const FactorialTooLargeMsg: string :=
    "Factorial of value > 97 exceeds size of Integer type, consider approximating the factorial via `gamma (x + 1)`"

  /** Integer::factorial: an error for negative values and for values above
      MAX_FACTORIAL; otherwise n!, computed by a loop that never overflows. */
  method Factorial(x: Integer) returns (r: Result<Integer, Error>)
    ensures x.value < 0 ==> r == Err(Errors.New(InvalidOperationError, FactorialNegativeMsg))
    ensures x.value > MaxFactorial.value ==> r == Err(Errors.New(InvalidOperationError, FactorialTooLargeMsg))
    ensures 0 <= x.value <= MaxFactorial.value ==> r.Ok? && r.value.value == Fact(x.value)
  {
    if x.value < 0 {
      return Err(Errors.New(InvalidOperationError, FactorialNegativeMsg));
    }
    if x.value > MaxFactorial.value {
      return Err(Errors.New(InvalidOperationError, FactorialTooLargeMsg));
    }
    var result: I512 := 1;
    var i: I512 := 0;
    while i < x.value
      invariant 0 <= i <= x.value
      invariant result == Fact(i)
      decreases x.value - i
    {
      i := i + 1;
      FactFits(i);
      assert result * i == Fact(i);
      result := result * i;
    }
    return Ok(Integer(result));
  }

  /** Every factorial up to MAX_FACTORIAL fits the 512-bit integer. */
  lemma FactFits(n: nat)
    requires n <= 97
    ensures Fact(n) <= I512Max
  {
    FactorialCeiling();
    FactMonotone(n, 97);
  }

  /** 0! = 1 */
  lemma FactorialOfZero()
    ensures Fact(0) == 1
  {
  }

  /** `From<Bitseq> for Integer`: the value of the bit pattern. */
  function FromBitseq(b: Bitseq): (i: Integer)
    ensures i.value == b.value
  {
    FromU128(b.value)
  }

  /** `From<u128> for Integer` */
  function FromU128(v: U128): (i: Integer)
    ensures i.value == v
  {
    PowersOfTwo();
    Pow2Monotone(128, 511);
    Integer(v)
  }

  /** `From<bool> for Integer` */
  function FromBool(b: bool): (i: Integer)
    ensures b ==> i == One
    ensures !b ==> i == Zero
  {
    if b then One else Zero
  }

  datatype Ordering = Less | Equal | Greater

  /** `Ord for Integer` */
  function Cmp(a: Integer, b: Integer): (o: Ordering)
    ensures o == Less <==> a.value < b.value
    ensures o == Equal <==> a.value == b.value
    ensures o == Greater <==> a.value > b.value
  {
    if a.value < b.value then Less else if a.value == b.value then Equal else Greater
  }

  /** The order is a total order, and `Eq` agrees with it. */
  lemma CmpIsTotalOrder(a: Integer, b: Integer, c: Integer)
    ensures Cmp(a, b) == Equal <==> a == b
    ensures Cmp(a, b) == Less <==> Cmp(b, a) == Greater
    ensures Cmp(a, b) == Less && Cmp(b, c) == Less ==> Cmp(a, c) == Less
  {
  }

  /** `Neg for Integer`: panics on overflow, which only the least value has. */
  function Neg(a: Integer): (r: Outcome<Integer, Error>)
    ensures r.Panicked? <==> a.value == I512Min
    ensures r.Returned? ==> r.result.Ok? && r.result.value.value == -a.value
  {
    if -(a.value as int) > I512Max then Panicked("attempt to negate with overflow")
    else Returned(Ok(Integer(-a.value)))
  }

  /** `Add for Integer`: panics when the sum leaves the 512-bit range. */
  function Add(a: Integer, b: Integer): (r: Outcome<Integer, Error>)
    ensures r.Panicked? <==> !(I512Min <= a.value + b.value <= I512Max)
    ensures r.Returned? ==> r.result.Ok? && r.result.value.value == a.value + b.value
  {
    if a.value + b.value < I512Min || a.value + b.value > I512Max then Panicked("attempt to add with overflow")
    else Returned(Ok(Integer(a.value + b.value)))
  }

  /** Negation is its own inverse wherever it does not panic, and 0 is the
      unit of addition. */
  lemma NegAddLaws(a: Integer)
    requires a.value != I512Min
    ensures Neg(a).Returned? && Neg(Neg(a).result.value) == Returned(Ok(a))
    ensures Add(a, Zero) == Returned(Ok(a))
    ensures Add(a, Neg(a).result.value) == Returned(Ok(Zero))
  {
  }
}
