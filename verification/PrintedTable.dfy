/** The digit table as it is printed, with 14 decimals (scripts/calculate-fmetric), and as it stands in
    posix/lib/fsort-metrics.c. Rounding can make a table invert two strings. */
module PrintedTable {
  import opened Bytes
  import opened Metrics
  import opened FMetricTable
  import opened Sums

  /** The factors that are read back from the printed digits. */
  function Decimals(digits: seq<nat>): (factors: seq<real>)
    ensures |factors| == |digits|
  {
    seq(|digits|, b requires 0 <= b < |digits| => digits[b] as real / UNITS as real)
  }

  // ---------------------------------------------------------------- exactly which printed tables order strings

  /** Checkable on the printed digits. The digit of byte 0 does not matter, since 0 ends a string. */
  ghost predicate DigitsHeavy(digits: seq<nat>)
    requires |digits| == BYTES
  {
    digits[1] > 0 && forall b :: 1 <= b < 255 ==> HeavyStep(digits, b)
  }

  predicate HeavyStep(digits: seq<nat>, b: nat)
    requires |digits| == BYTES && b < 255
  {
    (S - 1) * digits[b] + digits[255] <= (S - 1) * digits[b + 1]
  }

  lemma {:induction false} DigitsGrow(digits: seq<nat>, b: nat, c: nat)
    requires |digits| == BYTES && 1 <= b <= c <= 255 && forall i :: 1 <= i < 255 ==> HeavyStep(digits, i)
    ensures digits[b] <= digits[c]
  {
    if b < c {
      DigitsGrow(digits, b, c - 1);
      assert HeavyStep(digits, c - 1);
    }
  }

  lemma WideStepInUnits(digits: seq<nat>, b: CChar, c: CChar)
    requires |digits| == BYTES
    ensures WideStep(TableDigit(Decimals(digits)), S as real, b, c)
       <==> (S - 1) * digits[b] + digits[255] <= (S - 1) * digits[c]
  {
  }

  /** A printed table makes the metric order all strings as strcmp does if and only if its digits are spaced so. */
  lemma PrintedOrdersIff(digits: seq<nat>)
    requires |digits| == BYTES
    ensures OrdersStrings(TableDigit(Decimals(digits)), S as real) <==> DigitsHeavy(digits)
  {
    var digit := TableDigit(Decimals(digits));
    OrdersStringsIff(digit, S as real);
    hide OrdersStrings, WideStep;
    if WideSteps(digit, S as real) {
      assert digit(1) > 0.0;
      forall b | 1 <= b < 255 ensures HeavyStep(digits, b) {
        var c: CChar := b + 1;
        assert WideStep(digit, S as real, b, c);
        WideStepInUnits(digits, b, c);
      }
    }
    if DigitsHeavy(digits) {
      forall b: CChar ensures digit(b) > 0.0 {
        DigitsGrow(digits, 1, b);
      }
      forall b: CChar, c: CChar {:trigger WideStep(digit, S as real, b, c)} | b < c
        ensures WideStep(digit, S as real, b, c)
      {
        assert HeavyStep(digits, b);
        DigitsGrow(digits, b + 1, c);
        WideStepInUnits(digits, b, c);
      }
    }
  }

  // ---------------------------------------------------------------- the margin that rounding leaves

  /** The exact shares have to be spaced more widely than HeavyEnough asks, by what rounding can take away. */
  ghost predicate Margin(weights: seq<nat>)
    requires |weights| == BYTES
  {
    && 25 * UNITS * weights[0] > 13 * Sum(weights)
    && forall b :: 1 <= b < 255 ==> MarginAt(weights[b], weights[255], Sum(weights))
  }

  predicate MarginAt(weight: nat, last: nat, total: int) {
    25 * UNITS * ((S - 1) * weight + last - total) >= 13 * (2 * S - 1) * total
  }

  lemma StepAfterRounding(d: nat, e: nat, top: nat, x: nat, weight: nat, last: nat, total: nat)
    requires last <= total && total > 0 && MarginAt(weight, last, total)
    requires Nearest(d, x, total) && Nearest(e, x + weight, total) && Nearest(top, total - last, total)
    ensures (S - 1) * d + top <= (S - 1) * e
  {
    ProductsAfterRounding(d * total, e * total, top * total, x, weight, last, total);
    var step := (S - 1) * e - (S - 1) * d - top;
    TimesTotal(d, e, top, total);
    if step < 0 { NegativeTimes(step, total); }
  }

  lemma ProductsAfterRounding(dt: int, et: int, topt: int, x: nat, weight: nat, last: nat, total: int)
    requires MarginAt(weight, last, total)
    requires -26 * total <= 50 * (dt - UNITS * x) <= 26 * total
    requires -26 * total <= 50 * (et - UNITS * (x + weight)) <= 26 * total
    requires -26 * total <= 50 * (topt - UNITS * (total - last)) <= 26 * total
    ensures (S - 1) * dt + topt <= (S - 1) * et
  {
  }

  lemma TimesTotal(d: int, e: int, top: int, total: int)
    ensures ((S - 1) * e - (S - 1) * d - top) * total == (S - 1) * (e * total) - (S - 1) * (d * total) - top * total
  {
  }

  lemma NegativeTimes(x: int, y: nat)
    requires x < 0 && y > 0
    ensures x * y < 0
  {
  }

  /** With that margin, the printed table orders strings although it is rounded. */
  lemma MarginSuffices(digits: seq<nat>, weights: seq<nat>)
    requires Printed(digits, weights) && Margin(weights)
    ensures DigitsHeavy(digits)
  {
    hide Nearest, MarginAt, Sum;
    var total := Sum(weights);
    assert weights[..BYTES] == weights;
    SumPush(weights, 255);
    assert digits[1] > 0 by {
      SumPush(weights, 0);
      assert Sum(weights[..0]) == 0 by { SumOfNone(weights[..0]); }
      FirstDigit(digits[1], weights[0], total);
    }
    forall b | 1 <= b < 255 ensures HeavyStep(digits, b) {
      SumPush(weights, b);
      StepAfterRounding(digits[b], digits[b + 1], digits[255], Sum(weights[..b]), weights[b], weights[255], total);
    }
  }

  lemma SumOfNone(s: seq<nat>)
    requires s == []
    ensures Sum(s) == 0
  {
  }

  lemma FirstDigit(d: nat, x: nat, total: nat)
    requires Nearest(d, x, total) && 25 * UNITS * x > 13 * total
    ensures d > 0
  {
  }

  /** The generator's promise for what it prints: besides no printable byte below v, the slack that the rounding up in v
      and the last byte's own count leave must make up for the rounding of the digits. */
  lemma GeneratedPrintedOrders(count: seq<nat>, digits: seq<nat>)
    requires |count| == BYTES && PrintableSum(count, |count|) > 0
    requires Printed(digits, Preferred(count, V(count)))
    requires forall b :: 0 <= b < BYTES && IsStringByte(b) ==> count[b] >= V(count)
    requires MarginAt(V(count), count[255], Sum(Preferred(count, V(count))))
    ensures OrdersStrings(TableDigit(Decimals(digits)), S as real)
  {
    var v := V(count);
    var weights := Preferred(count, v);
    GeneratedSlots(count, v);
    hide PrintableSum, V, Sum, Printed, Preferred, MarginAt;
    forall b | 1 <= b < 255 ensures MarginAt(weights[b], weights[255], Sum(weights)) {
      MarginGrows(v, weights[b], weights[255], Sum(weights));
    }
    MarginSuffices(digits, weights);
    PrintedOrdersIff(digits);
  }

  lemma GeneratedSlots(count: seq<nat>, v: nat)
    requires |count| == BYTES && PrintableSum(count, |count|) > 0 && v == V(count)
    requires forall b :: 0 <= b < BYTES && IsStringByte(b) ==> count[b] >= v
    ensures var weights := Preferred(count, v);
      && Sum(weights) <= v * S && 25 * UNITS * weights[0] > 13 * Sum(weights) && weights[255] == count[255]
      && forall b :: 0 <= b < BYTES ==> weights[b] >= v
  {
    GeneratedTotal(count);
    TotalPositive(count, v);
    hide PrintableSum, V, Sum;
  }

  lemma MarginGrows(v: nat, weight: nat, last: nat, total: int)
    requires v <= weight && MarginAt(v, last, total)
    ensures MarginAt(weight, last, total)
  {
  }

  // ---------------------------------------------------------------- rounding can invert two strings

  /** Every byte once, but 'A' 65281 times. */
  function Skewed(): (count: seq<nat>)
    ensures |count| == BYTES
  {
    seq(BYTES, b => if b == 65 then 65281 else 1)
  }

  lemma {:induction false} NonPrintablesBelow(n: nat)
    requires n <= BYTES
    ensures NonPrintables(n) ==
      if n <= 48 then n else if n <= 58 then 48 else if n <= 65 then n - 10 else if n <= 91 then 55
      else if n <= 97 then n - 36 else if n <= 123 then 61 else if n <= 160 then n - 62 else 98
  {
    if n > 0 { NonPrintablesBelow(n - 1); }
  }

  lemma {:induction false} SkewedPrintables(n: nat)
    requires n <= BYTES
    ensures PrintableSum(Skewed(), n) == n - NonPrintables(n) + if n > 65 then 65280 else 0
  {
    if n > 0 { SkewedPrintables(n - 1); }
  }

  lemma {:induction false} SkewedSums(n: nat)
    requires n <= BYTES
    ensures Sum(Skewed()[..n]) == n + if n > 65 then 65280 else 0
  {
    if n > 0 {
      SkewedSums(n - 1);
      SumPush(Skewed(), n - 1);
    }
  }

  lemma SkewedWeights()
    ensures V(Skewed()) == 1 && Preferred(Skewed(), 1) == Skewed()
    ensures PrintableSum(Skewed(), |Skewed()|) > 0 && Sum(Skewed()) == S
  {
    NonPrintablesBelow(|Skewed()|);
    SkewedPrintables(|Skewed()|);
    SkewedSums(|Skewed()|);
    assert Skewed()[..|Skewed()|] == Skewed();
  }

  /** Here v = 1 and no byte is below it, so that the exact shares are spaced well; but however halves are rounded, the
      printed digits of bytes 4 and 5 are too close: the metric puts 04 FF FF FF above 05, and strcmp below. */
  lemma RoundingInverts(digits: seq<nat>)
    requires Printed(digits, Preferred(Skewed(), V(Skewed())))
    ensures PrintableSum(Skewed(), BYTES) > 0 && forall b :: 0 <= b < BYTES ==> Skewed()[b] >= V(Skewed())
    ensures !DigitsHeavy(digits)
    ensures StrCmp([4, 255, 255, 255], [5]) < 0
    ensures PrintablePref(Decimals(digits), [4, 255, 255, 255]) > PrintablePref(Decimals(digits), [5])
  {
    SkewedWeights();
    SkewedDigits(digits);
    assert !HeavyStep(digits, 4);
    var digit := TableDigit(Decimals(digits));
    hide DigitsHeavy, Printed, PrintableSum, Skewed, V;
    ExpandFour(digit, 4, 255, 255, 255);
    ExpandOne(digit, 5);
  }

  lemma ExpandOne(digit: CChar -> real, a: CChar)
    ensures Expand(digit, S as real, [a]) == digit(a)
  {
    ExpandCons(digit, S as real, a, []);
    assert [a] + [] == [a];
  }

  lemma ExpandFour(digit: CChar -> real, a: CChar, b: CChar, c: CChar, d: CChar)
    ensures Expand(digit, S as real, [a, b, c, d])
         == digit(a) + (digit(b) + (digit(c) + digit(d) / S as real) / S as real) / S as real
  {
    ExpandOne(digit, d);
    ExpandCons(digit, S as real, c, [d]);
    ExpandCons(digit, S as real, b, [c, d]);
    ExpandCons(digit, S as real, a, [b, c, d]);
    assert [c] + [d] == [c, d] && [b] + [c, d] == [b, c, d] && [a] + [b, c, d] == [a, b, c, d];
  }

  lemma SkewedDigits(digits: seq<nat>)
    requires Printed(digits, Skewed())
    ensures digits[4] == 6103515625 && digits[5] == 7629394531 && digits[255] == 99998474121094
  {
    SkewedSums(4);
    SkewedSums(5);
    SkewedSums(255);
    SkewedWeights();
    hide Skewed;
    assert Nearest(digits[4], 4, S) && Nearest(digits[5], 5, S) && Nearest(digits[255], 65535, S);
  }

  // ---------------------------------------------------------------- the table of the library

  /** Eight entries of a table, as the source has them on one line. */
  datatype Eight = Eight(x0: nat, x1: nat, x2: nat, x3: nat, x4: nat, x5: nat, x6: nat, x7: nat) {
    function At(k: nat): nat {
      match k case 0 => x0 case 1 => x1 case 2 => x2 case 3 => x3 case 4 => x4 case 5 => x5 case 6 => x6 case _ => x7
    }
  }

  /** factors_printable_pref, line by line. */
  function Row(r: nat): Eight
  {
    match r
    case 0 => Eight(0, 1525879479, 3051758959, 4577638438,
      6103517918, 7629397397, 9155276877, 10681156356)
    case 1 => Eight(12207035836, 13732915315, 15258794795, 16784674274,
      18310553754, 19836433233, 21362312713, 22888192192)
    case 2 => Eight(24414071672, 25939951151, 27465830631, 28991710110,
      30517589590, 32043469069, 33569348549, 35095228028)
    case 3 => Eight(36621107507, 38146986987, 39672866466, 41198745946,
      42724625425, 44250504905, 45776384384, 47302263864)
    case 4 => Eight(48828143343, 50354022823, 51879902302, 53405781782,
      54931661261, 56457540741, 57983420220, 59509299700)
    case 5 => Eight(61035179179, 62561058659, 64086938138, 65612817618,
      67138697097, 68664576577, 70190456056, 71716335536)
    case 6 => Eight(73242215015, 1008840232255, 2252730911846, 2624885109458,
      2916173248062, 3311955547312, 3734791091925, 3999222641010)
    case 7 => Eight(4222218607791, 4835701212884, 5400797333605, 5402323213085,
      5403849092564, 5405374972044, 5406900851523, 5408426731003)
    case 8 => Eight(5409952610482, 5411478489962, 7804261683058, 8599070449640,
      9355132788249, 11307995878629, 14272334781577, 14696780486746)
    case 9 => Eight(15155415561712, 23588542779576, 25177800974819, 25443373585137,
      25741986663918, 27920952034068, 28531939527309, 29111878590850)
    case 10 => Eight(29569480405958, 30393309956354, 30652137140560, 31165293578216,
      31996059003822, 32854736819094, 33393875348439, 33736768005829)
    case 11 => Eight(34060303129434, 34465973101577, 34675279926935, 34898157312203,
      34899683191682, 34901209071162, 34902734950641, 34904260830121)
    case 12 => Eight(34905786709600, 34907312589080, 36351831756574, 36895457109865,
      38174027165509, 39356798058174, 41618644719726, 43040565778732)
    case 13 => Eight(43650632713554, 44377004919803, 45835862650345, 46006029736043,
      46312971941154, 47745594736779, 48451929607230, 49960425624791)
    case 14 => Eight(51277328543128, 52262072227765, 52426009373931, 54047578581658,
      55508601486507, 58166108925758, 59316007258770, 59789587851198)
    case 15 => Eight(60161137381091, 60704996630701, 61071073444062, 61253040207061,
      61254566086541, 61256091966020, 61257617845500, 61259143724979)
    case 16 => Eight(61260669604459, 61262195483938, 61263721363418, 61265247242897,
      61266773122377, 61268299001856, 61269824881336, 61271350760815)
    case 17 => Eight(61272876640295, 61274402519774, 61275928399254, 61277454278733,
      61278980158213, 61280506037692, 61282031917172, 61283557796651)
    case 18 => Eight(61285083676131, 61286609555610, 61288135435090, 61289661314569,
      61291187194048, 61292713073528, 61294238953007, 61295764832487)
    case 19 => Eight(61297290711966, 61298816591446, 61300342470925, 61301868350405,
      61303394229884, 61304920109364, 61306445988843, 61307971868323)
    case 20 => Eight(61309497747802, 61584179901080, 61691223400937, 61814057515713,
      61936180468076, 62087655448482, 62199871781043, 62333659495653)
    case 21 => Eight(62450845471657, 62712529719002, 62824516401965, 62967161142977,
      63087295649955, 63269738045694, 63374922788489, 63480804320180)
    case 22 => Eight(63604719062084, 63871517994723, 63986371867622, 64104754765573,
      64227696355054, 64468277012989, 64606187640232, 64982074378827)
    case 23 => Eight(65213260963504, 65675410036663, 65953058034469, 66409042175593,
      66578761722244, 66933571658438, 67094150955071, 67688576890218)
    case 24 => Eight(68060717367655, 69483556045042, 70097941241658, 70457310522723,
      71099146523111, 71550172127601, 71877962465527, 72390741598367)
    case 25 => Eight(73332090655691, 73645964162622, 73956641522083, 74139473309459,
      74280927661941, 74449846538371, 74601352879178, 74756899484896)
    case 26 => Eight(74900490264652, 75283874425627, 75476278648538, 75866122398643,
      76031021590424, 76193379283093, 76369561685582, 76541005727582)
    case 27 => Eight(76688727913413, 77055770039097, 77206333281198, 77371745346193,
      77604645319409, 77771732225785, 77926337366151, 78139710263417)
    case 28 => Eight(78703686883180, 79161628109289, 79366316462354, 79609531393918,
      79795144783471, 80024979277554, 80205516855642, 80450388008350)
    case 29 => Eight(80731519297291, 83378463508357, 84354011735604, 84602818291885,
      85111909964317, 85447986634694, 85743753430473, 86027124374672)
    case 30 => Eight(86448852178477, 87114771006308, 87333857376512, 87691629890527,
      87957578825648, 88158237040598, 88377222142843, 88883026199971)
    case _ => Eight(89223288177112, 89839208073320, 90142693447634, 90480110775126,
      90888502568683, 91294999018044, 91763264675954, 92618502647313)
  }

  function Shipped(): (digits: seq<nat>)
    ensures |digits| == BYTES && forall b :: 0 <= b < BYTES ==> digits[b] == Row(b / 8).At(b % 8)
  {
    seq(BYTES, b requires 0 <= b < BYTES => Row(b / 8).At(b % 8))
  }

  /** binary_byte_count in the script, line by line. */
  function CountRow(r: nat): Eight
  {
    match r
    case 0 => Eight(207059223, 10124271, 5166309, 3843289, 4245729, 4293868, 1771579, 1847228)
    case 1 => Eight(5452286, 1331936, 2398333, 1379059, 1397002, 1192199, 4884078, 9316287)
    case 2 => Eight(4668677, 934628, 1186935, 715390, 1375870, 1074543, 628673, 1158625)
    case 3 => Eight(2932591, 572600, 546600, 501615, 981199, 592116, 520894, 2953651)
    case 4 => Eight(12643026, 898935, 963689, 771939, 11803808, 1378336, 596333, 868292)
    case 5 => Eight(2934133, 1751707, 805172, 572216, 1305354, 1313105, 2447518, 1069802)
    case 6 => Eight(2864039, 3807780, 1139233, 891687, 1211563, 1294378, 809474, 682632)
    case 7 => Eight(1877984, 1729864, 1084647, 1117751, 1096989, 1349510, 563642, 582210)
    case 8 => Eight(3251289, 7324753, 2433057, 2314447, 5978076, 9074391, 1299307, 1403967)
    case 9 => Eight(25815366, 4865014, 812967, 914110, 6670217, 1870346, 1775301, 1400804)
    case 10 => Eight(2521895, 792318, 1570867, 2543127, 2628572, 1650403, 1049658, 990401)
    case 11 => Eight(1241831, 640727, 682269, 1092521, 1520637, 1121049, 684743, 5245111)
    case 12 => Eight(1291413, 4421941, 1664138, 3913940, 3620681, 6923932, 4352764, 1867528)
    case 13 => Eight(2223560, 4465834, 520913, 939607, 4385524, 2162222, 4617786, 4031284)
    case 14 => Eight(3014483, 501842, 4963924, 4472462, 8135123, 3520052, 1449718, 1137382)
    case 15 => Eight(1664854, 1120629, 557034, 867370, 1610105, 829927, 581444, 611868)
    case 16 => Eight(2235852, 1011336, 564300, 5844408, 4705586, 4610849, 984826, 615623)
    case 17 => Eight(1187677, 14627408, 491927, 11026817, 1184232, 5471578, 725023, 755505)
    case 18 => Eight(1462013, 392677, 429187, 425237, 887069, 609790, 406777, 383887)
    case 19 => Eight(754540, 362599, 368855, 353008, 519767, 360716, 347706, 367328)
    case 20 => Eight(840853, 327680, 376018, 373841, 463693, 343515, 409549, 358728)
    case 21 => Eight(801064, 342812, 436662, 367754, 558490, 321990, 324123, 379326)
    case 22 => Eight(816721, 351589, 362392, 376347, 736462, 422170, 1150659, 707705)
    case 23 => Eight(1414724, 849932, 1395852, 519543, 1086139, 491563, 1819648, 1139191)
    case 24 => Eight(4355573, 1880747, 1100096, 1964779, 1380673, 1003427, 1569712, 2881644)
    case 25 => Eight(960825, 951041, 559682, 433018, 517092, 463789, 476157, 439558)
    case 26 => Eight(1173610, 588985, 1193384, 504787, 497007, 539327, 524822, 452205)
    case 27 => Eight(1123584, 460902, 506357, 712950, 511484, 473275, 653174, 1726437)
    case 28 => Eight(1401843, 626589, 744526, 568197, 703566, 552659, 749596, 860595)
    case 29 => Eight(8102787, 2986334, 761643, 1558424, 1028793, 905397, 867451, 1290987)
    case 30 => Eight(2038501, 670664, 1095208, 814119, 614252, 670354, 1548360, 1041605)
    case _ => Eight(1885445, 929025, 1032897, 1250163, 1244361, 1433448, 2618042, 22596132)
  }

  function ScriptCounts(): (count: seq<nat>)
    ensures |count| == BYTES && forall b :: 0 <= b < BYTES ==> count[b] == CountRow(b / 8).At(b % 8)
  {
    seq(BYTES, b requires 0 <= b < BYTES => CountRow(b / 8).At(b % 8))
  }

  // ---------------------------------------------------------------- the script prints that table

  /** The minimal weight for these counts, and the total weight. */
  const V0: nat := 4671
  const TOTAL: nat := 306118541

  function Weight(b: nat, count: nat): nat { if IsStringByte(b) then count else V0 }

  /** binary_printable_preferred_accumulated_count, line by line, and the total behind it. */
  function Accumulated(r: nat): Eight {
    match r
    case 0 => Eight(0, 4671, 9342, 14013, 18684, 23355, 28026, 32697)
    case 1 => Eight(37368, 42039, 46710, 51381, 56052, 60723, 65394, 70065)
    case 2 => Eight(74736, 79407, 84078, 88749, 93420, 98091, 102762, 107433)
    case 3 => Eight(112104, 116775, 121446, 126117, 130788, 135459, 140130, 144801)
    case 4 => Eight(149472, 154143, 158814, 163485, 168156, 172827, 177498, 182169)
    case 5 => Eight(186840, 191511, 196182, 200853, 205524, 210195, 214866, 219537)
    case 6 => Eight(224208, 3088247, 6896027, 8035260, 8926947, 10138510, 11432888, 12242362)
    case 7 => Eight(12924994, 14802978, 16532842, 16537513, 16542184, 16546855, 16551526, 16556197)
    case 8 => Eight(16560868, 16565539, 23890292, 26323349, 28637796, 34615872, 43690263, 44989570)
    case 9 => Eight(46393537, 72208903, 77073917, 77886884, 78800994, 85471211, 87341557, 89116858)
    case 10 => Eight(90517662, 93039557, 93831875, 95402742, 97945869, 100574441, 102224844, 103274502)
    case 11 => Eight(104264903, 105506734, 106147461, 106829730, 106834401, 106839072, 106843743, 106848414)
    case 12 => Eight(106853085, 106857756, 111279697, 112943835, 116857775, 120478456, 127402388, 131755152)
    case 13 => Eight(133622680, 135846240, 140312074, 140832987, 141772594, 146158118, 148320340, 152938126)
    case 14 => Eight(156969410, 159983893, 160485735, 165449659, 169922121, 178057244, 181577296, 183027014)
    case 15 => Eight(184164396, 185829250, 186949879, 187506913, 187511584, 187516255, 187520926, 187525597)
    case 16 => Eight(187530268, 187534939, 187539610, 187544281, 187548952, 187553623, 187558294, 187562965)
    case 17 => Eight(187567636, 187572307, 187576978, 187581649, 187586320, 187590991, 187595662, 187600333)
    case 18 => Eight(187605004, 187609675, 187614346, 187619017, 187623688, 187628359, 187633030, 187637701)
    case 19 => Eight(187642372, 187647043, 187651714, 187656385, 187661056, 187665727, 187670398, 187675069)
    case 20 => Eight(187679740, 188520593, 188848273, 189224291, 189598132, 190061825, 190405340, 190814889)
    case 21 => Eight(191173617, 191974681, 192317493, 192754155, 193121909, 193680399, 194002389, 194326512)
    case 22 => Eight(194705838, 195522559, 195874148, 196236540, 196612887, 197349349, 197771519, 198922178)
    case 23 => Eight(199629883, 201044607, 201894539, 203290391, 203809934, 204896073, 205387636, 207207284)
    case 24 => Eight(208346475, 212702048, 214582795, 215682891, 217647670, 219028343, 220031770, 221601482)
    case 25 => Eight(224483126, 225443951, 226394992, 226954674, 227387692, 227904784, 228368573, 228844730)
    case 26 => Eight(229284288, 230457898, 231046883, 232240267, 232745054, 233242061, 233781388, 234306210)
    case 27 => Eight(234758415, 235881999, 236342901, 236849258, 237562208, 238073692, 238546967, 239200141)
    case 28 => Eight(240926578, 242328421, 242955010, 243699536, 244267733, 244971299, 245523958, 246273554)
    case 29 => Eight(247134149, 255236936, 258223270, 258984913, 260543337, 261572130, 262477527, 263344978)
    case 30 => Eight(264635965, 266674466, 267345130, 268440338, 269254457, 269868709, 270539063, 272087423)
    case 31 => Eight(273129028, 275014473, 275943498, 276976395, 278226558, 279470919, 280904367, 283522409)
    case _ => Eight(306118541, 0, 0, 0, 0, 0, 0, 0)
  }

  predicate LineSummed(r: nat) {
    var a, c, b := Accumulated(r), CountRow(r), 8 * r;
    && a.x1 == a.x0 + Weight(b, c.x0) && a.x2 == a.x1 + Weight(b + 1, c.x1) && a.x3 == a.x2 + Weight(b + 2, c.x2)
    && a.x4 == a.x3 + Weight(b + 3, c.x3) && a.x5 == a.x4 + Weight(b + 4, c.x4) && a.x6 == a.x5 + Weight(b + 5, c.x5)
    && a.x7 == a.x6 + Weight(b + 6, c.x6) && Accumulated(r + 1).x0 == a.x7 + Weight(b + 7, c.x7)
  }

  predicate LinePrinted(r: nat) {
    var d, a := Row(r), Accumulated(r);
    && Nearest(d.x0, a.x0, TOTAL) && Nearest(d.x1, a.x1, TOTAL) && Nearest(d.x2, a.x2, TOTAL)
    && Nearest(d.x3, a.x3, TOTAL) && Nearest(d.x4, a.x4, TOTAL) && Nearest(d.x5, a.x5, TOTAL)
    && Nearest(d.x6, a.x6, TOTAL) && Nearest(d.x7, a.x7, TOTAL)
  }

  lemma LinesSummedTo7(r: nat)
    requires 0 <= r < 8
    ensures LineSummed(r)
  {
  }

  lemma LinesSummedTo15(r: nat)
    requires 8 <= r < 16
    ensures LineSummed(r)
  {
  }

  lemma LinesSummedTo23(r: nat)
    requires 16 <= r < 24
    ensures LineSummed(r)
  {
  }

  lemma LinesSummedTo31(r: nat)
    requires 24 <= r < 32
    ensures LineSummed(r)
  {
  }

  lemma LinesPrintedTo7(r: nat)
    requires 0 <= r < 8
    ensures LinePrinted(r)
  {
  }

  lemma LinesPrintedTo15(r: nat)
    requires 8 <= r < 16
    ensures LinePrinted(r)
  {
  }

  lemma LinesPrintedTo23(r: nat)
    requires 16 <= r < 24
    ensures LinePrinted(r)
  {
  }

  lemma LinesPrintedTo31(r: nat)
    requires 24 <= r < 32
    ensures LinePrinted(r)
  {
  }

  lemma Lines(r: nat)
    requires r < 32
    ensures LineSummed(r) && LinePrinted(r)
  {
    hide LineSummed, LinePrinted;
    if r < 8 { LinesSummedTo7(r); LinesPrintedTo7(r); }
    else if r < 16 { LinesSummedTo15(r); LinesPrintedTo15(r); }
    else if r < 24 { LinesSummedTo23(r); LinesPrintedTo23(r); }
    else { LinesSummedTo31(r); LinesPrintedTo31(r); }
  }

  lemma NextPlace(b: nat)
    ensures b == 8 * (b / 8) + b % 8
    ensures (b + 1) / 8 == (if b % 8 == 7 then b / 8 + 1 else b / 8)
    ensures (b + 1) % 8 == (if b % 8 == 7 then 0 else b % 8 + 1)
  {
  }

  lemma SumAt(r: nat, k: nat)
    requires k < 8 && LineSummed(r)
    ensures AccumulatedAt(r, k + 1) == AccumulatedAt(r, k) + Weight(8 * r + k, CountRow(r).At(k))
  {
    hide Accumulated, CountRow, Weight;
  }

  /** The accumulated count of byte k of line r, or for k = 8 of the first byte of the next line. */
  function AccumulatedAt(r: nat, k: nat): nat { if k == 8 then Accumulated(r + 1).x0 else Accumulated(r).At(k) }

  lemma NextSum(b: nat)
    requires b < BYTES
    ensures AccumulatedAt((b + 1) / 8, (b + 1) % 8)
         == AccumulatedAt(b / 8, b % 8) + Preferred(ScriptCounts(), V0)[b]
  {
    hide Accumulated, CountRow, LineSummed, LinePrinted, IsStringByte;
    NextPlace(b);
    Lines(b / 8);
    SumAt(b / 8, b % 8);
    var r, k := b / 8, b % 8;
    assert Preferred(ScriptCounts(), V0)[b] == Weight(b, CountRow(r).At(k));
    hide Preferred, ScriptCounts, Weight;
    assert k == 7 ==> AccumulatedAt(r + 1, 0) == AccumulatedAt(r, 8);
  }

  lemma {:induction false} WeightsBelow(b: nat)
    requires b <= BYTES
    ensures Sum(Preferred(ScriptCounts(), V0)[..b]) == AccumulatedAt(b / 8, b % 8)
  {
    if b > 0 {
      WeightsBelow(b - 1);
      SumPush(Preferred(ScriptCounts(), V0), b - 1);
      NextSum(b - 1);
      hide *;
    }
  }

  lemma DigitPrinted(b: nat)
    requires b < BYTES
    ensures Nearest(Shipped()[b], AccumulatedAt(b / 8, b % 8), TOTAL)
  {
    hide Row, Accumulated, Nearest;
    NextPlace(b);
    Lines(b / 8);
    PrintedAt(b / 8, b % 8);
  }

  lemma PrintedAt(r: nat, k: nat)
    requires k < 8 && LinePrinted(r)
    ensures Nearest(Row(r).At(k), Accumulated(r).At(k), TOTAL)
  {
    hide Row, Accumulated, Nearest;
  }

  lemma ScriptTotals()
    ensures Sum(Preferred(ScriptCounts(), 4671)) == 306118541
    ensures PrintableSum(ScriptCounts(), |ScriptCounts()|) == 305660783 && V(ScriptCounts()) == 4671
  {
    hide CountRow, PrintableSum, NonPrintables, Sum, Weight;
    var count := ScriptCounts();
    WeightsBelow(BYTES);
    assert Preferred(count, V0)[..BYTES] == Preferred(count, V0);
    SumPreferred(count, V0, |count|);
    NonPrintablesBelow(|count|);
  }

  /** The table of the library is what the script prints for its counts. */
  lemma ShippedPrinted()
    ensures V(ScriptCounts()) == 4671 && Printed(Shipped(), Preferred(ScriptCounts(), 4671))
  {
    ScriptTotals();
    var weights := Preferred(ScriptCounts(), 4671);
    assert |weights| == BYTES;
    hide Sum, Nearest, V, PrintableSum, Row, CountRow, Accumulated, Preferred;
    forall b | 0 <= b < BYTES
      ensures Sum(weights[..b]) >= 0 && Nearest(Shipped()[b], Sum(weights[..b]), Sum(weights))
    {
      WeightsBelow(b);
      DigitPrinted(b);
    }
  }

  /** So the metric of one byte is the share of the weights below it, up to what printing takes away. */
  lemma ShippedShare(b: CChar)
    ensures var share := Sum(Preferred(ScriptCounts(), 4671)[..b]) as real / 306118541.0;
      share - 0.0000000000000052 <= PrintablePref(Decimals(Shipped()), [b]) <= share + 0.0000000000000052
  {
    ScriptTotals();
    ShippedPrinted();
    PrintablePrefFirst(Decimals(Shipped()), b, []);
    assert [b] + [] == [b];
    var x, d := Sum(Preferred(ScriptCounts(), 4671)[..b]), Shipped()[b];
    assert Nearest(d, x, 306118541);
    hide Sum, Printed, V, PrintableSum, Shipped, ScriptCounts, Preferred, PrintablePref;
    DigitNearShare(d, x);
  }

  lemma DigitNearShare(d: nat, x: nat)
    requires Nearest(d, x, 306118541)
    ensures var share := x as real / 306118541.0;
      share - 0.0000000000000052 <= d as real / UNITS as real <= share + 0.0000000000000052
  {
  }

  lemma CountsEnough(r: nat, k: nat)
    ensures CountRow(r).At(k) >= 4671
  {
  }

  /** With the table of the library, metric_binary_printable_pref orders all strings exactly as strcmp does: no byte
      counts less than v, and the slack covers the rounding. */
  lemma ShippedOrders()
    ensures OrdersStrings(TableDigit(Decimals(Shipped())), S as real)
  {
    ScriptTotals();
    ShippedPrinted();
    var count := ScriptCounts();
    forall b | 0 <= b < BYTES ensures count[b] >= 4671 { CountsEnough(b / 8, b % 8); }
    assert count[255] == 22596132;
    assert MarginAt(4671, 22596132, 306118541);
    hide Printed, V, PrintableSum, Shipped, ScriptCounts, Preferred, OrdersStrings, CountRow, Sum, MarginAt;
    GeneratedPrintedOrders(count, Shipped());
  }
}
