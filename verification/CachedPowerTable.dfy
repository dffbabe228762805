/**
 The cached powers of ten: each table row `f * 2^e` lies within half a unit of its last
 place of `10^k`.  One lemma a row, each multiplying up the powers of its neighbour.
 */
module CachedPowerTable {
  import opened Powers
  import opened DiyFp
  import opened Words

  /** A row of the table: f * 2^e is approximately 10^k. */
  datatype Cached = Cached(f: uint64, e: int, k: int)

  /** `kCachedPowers`. */
  function Row(index: nat): Cached
    requires index < 79
  {
    match index
    case 0 => Cached(0xAB70FE17C79AC6CA, -1060, -300)
    case 1 => Cached(0xFF77B1FCBEBCDC4F, -1034, -292)
    case 2 => Cached(0xBE5691EF416BD60C, -1007, -284)
    case 3 => Cached(0x8DD01FAD907FFC3C, -980, -276)
    case 4 => Cached(0xD3515C2831559A83, -954, -268)
    case 5 => Cached(0x9D71AC8FADA6C9B5, -927, -260)
    case 6 => Cached(0xEA9C227723EE8BCB, -901, -252)
    case 7 => Cached(0xAECC49914078536D, -874, -244)
    case 8 => Cached(0x823C12795DB6CE57, -847, -236)
    case 9 => Cached(0xC21094364DFB5637, -821, -228)
    case 10 => Cached(0x9096EA6F3848984F, -794, -220)
    case 11 => Cached(0xD77485CB25823AC7, -768, -212)
    case 12 => Cached(0xA086CFCD97BF97F4, -741, -204)
    case 13 => Cached(0xEF340A98172AACE5, -715, -196)
    case 14 => Cached(0xB23867FB2A35B28E, -688, -188)
    case 15 => Cached(0x84C8D4DFD2C63F3B, -661, -180)
    case 16 => Cached(0xC5DD44271AD3CDBA, -635, -172)
    case 17 => Cached(0x936B9FCEBB25C996, -608, -164)
    case 18 => Cached(0xDBAC6C247D62A584, -582, -156)
    case 19 => Cached(0xA3AB66580D5FDAF6, -555, -148)
    case 20 => Cached(0xF3E2F893DEC3F126, -529, -140)
    case 21 => Cached(0xB5B5ADA8AAFF80B8, -502, -132)
    case 22 => Cached(0x87625F056C7C4A8B, -475, -124)
    case 23 => Cached(0xC9BCFF6034C13053, -449, -116)
    case 24 => Cached(0x964E858C91BA2655, -422, -108)
    case 25 => Cached(0xDFF9772470297EBD, -396, -100)
    case 26 => Cached(0xA6DFBD9FB8E5B88F, -369, -92)
    case 27 => Cached(0xF8A95FCF88747D94, -343, -84)
    case 28 => Cached(0xB94470938FA89BCF, -316, -76)
    case 29 => Cached(0x8A08F0F8BF0F156B, -289, -68)
    case 30 => Cached(0xCDB02555653131B6, -263, -60)
    case 31 => Cached(0x993FE2C6D07B7FAC, -236, -52)
    case 32 => Cached(0xE45C10C42A2B3B06, -210, -44)
    case 33 => Cached(0xAA242499697392D3, -183, -36)
    case 34 => Cached(0xFD87B5F28300CA0E, -157, -28)
    case 35 => Cached(0xBCE5086492111AEB, -130, -20)
    case 36 => Cached(0x8CBCCC096F5088CC, -103, -12)
    case 37 => Cached(0xD1B71758E219652C, -77, -4)
    case 38 => Cached(0x9C40000000000000, -50, 4)
    case 39 => Cached(0xE8D4A51000000000, -24, 12)
    case 40 => Cached(0xAD78EBC5AC620000, 3, 20)
    case 41 => Cached(0x813F3978F8940984, 30, 28)
    case 42 => Cached(0xC097CE7BC90715B3, 56, 36)
    case 43 => Cached(0x8F7E32CE7BEA5C70, 83, 44)
    case 44 => Cached(0xD5D238A4ABE98068, 109, 52)
    case 45 => Cached(0x9F4F2726179A2245, 136, 60)
    case 46 => Cached(0xED63A231D4C4FB27, 162, 68)
    case 47 => Cached(0xB0DE65388CC8ADA8, 189, 76)
    case 48 => Cached(0x83C7088E1AAB65DB, 216, 84)
    case 49 => Cached(0xC45D1DF942711D9A, 242, 92)
    case 50 => Cached(0x924D692CA61BE758, 269, 100)
    case 51 => Cached(0xDA01EE641A708DEA, 295, 108)
    case 52 => Cached(0xA26DA3999AEF774A, 322, 116)
    case 53 => Cached(0xF209787BB47D6B85, 348, 124)
    case 54 => Cached(0xB454E4A179DD1877, 375, 132)
    case 55 => Cached(0x865B86925B9BC5C2, 402, 140)
    case 56 => Cached(0xC83553C5C8965D3D, 428, 148)
    case 57 => Cached(0x952AB45CFA97A0B3, 455, 156)
    case 58 => Cached(0xDE469FBD99A05FE3, 481, 164)
    case 59 => Cached(0xA59BC234DB398C25, 508, 172)
    case 60 => Cached(0xF6C69A72A3989F5C, 534, 180)
    case 61 => Cached(0xB7DCBF5354E9BECE, 561, 188)
    case 62 => Cached(0x88FCF317F22241E2, 588, 196)
    case 63 => Cached(0xCC20CE9BD35C78A5, 614, 204)
    case 64 => Cached(0x98165AF37B2153DF, 641, 212)
    case 65 => Cached(0xE2A0B5DC971F303A, 667, 220)
    case 66 => Cached(0xA8D9D1535CE3B396, 694, 228)
    case 67 => Cached(0xFB9B7CD9A4A7443C, 720, 236)
    case 68 => Cached(0xBB764C4CA7A44410, 747, 244)
    case 69 => Cached(0x8BAB8EEFB6409C1A, 774, 252)
    case 70 => Cached(0xD01FEF10A657842C, 800, 260)
    case 71 => Cached(0x9B10A4E5E9913129, 827, 268)
    case 72 => Cached(0xE7109BFBA19C0C9D, 853, 276)
    case 73 => Cached(0xAC2820D9623BF429, 880, 284)
    case 74 => Cached(0x80444B5E7AA7CF85, 907, 292)
    case 75 => Cached(0xBF21E44003ACDD2D, 933, 300)
    case 76 => Cached(0x8E679C2F5E44FF8F, 960, 308)
    case 77 => Cached(0xD433179D9C8CB841, 986, 316)
    case _ => Cached(0x9E19DB92B4E31BA9, 1013, 324)
  }

  /** The row is the double-word nearest to its power of ten. */
  predicate Accurate(c: Cached) {
    -Two(c.e) <= 2.0 * (Diy(c.f, c.e).Value() - Ten(c.k)) <= Two(c.e)
  }

  /** The same in integers, for negative exponents of both bases. */
  predicate AccurateBelow(f: int, tens: int, twos: int) {
    -tens <= 2 * (f * tens - twos) <= tens
  }

  /** The same in integers, for positive exponents of both bases. */
  predicate AccurateAbove(f: int, tens: int, twos: int) {
    -twos <= 2 * (f * twos - tens) <= twos
  }

  lemma FromBelow(f: uint64, m: int, n: int)
    requires m > 0 && n > 0 && AccurateBelow(f, Pow(10, n), Pow(2, m))
    ensures Accurate(Cached(f, -m, -n))
  {
    hide Pow;
    BelowAsReals(f, Pow(10, n), Pow(2, m));
  }

  lemma BelowAsReals(f: nat, tens: nat, twos: nat)
    requires tens > 0 && twos > 0 && AccurateBelow(f, tens, twos)
    ensures var x, y := Reciprocal(twos), Reciprocal(tens);
            -x <= 2.0 * ((f as real) * x - y) <= x
  {
    hide Reciprocal;
    ProductAsReal(f, tens);
    ReciprocalInverts(twos);
    ReciprocalInverts(tens);
    DivideTwice(f as real, tens as real, twos as real, Reciprocal(twos), Reciprocal(tens));
  }

  lemma ReciprocalInverts(x: nat)
    requires x > 0
    ensures Reciprocal(x) * (x as real) == 1.0
  {
    Inverse(x as real);
  }

  /** -q <= 2 (f q - p) <= q, divided by p and by q. */
  lemma DivideTwice(f: real, q: real, p: real, x: real, y: real)
    requires x > 0.0 && y > 0.0 && x * p == 1.0 && y * q == 1.0 && -q <= 2.0 * (f * q - p) <= q
    ensures -x <= 2.0 * (f * x - y) <= x
  {
    var d := f * q - p;
    var z := x * y;
    PositiveProduct(x, y);
    ScaleBounds(2.0 * d, q, z);
    Divided(f, q, p, x, y);
    Associate(2.0, d, z);
    SwapEnds(q, x, y);
  }

  lemma PositiveProduct(x: real, y: real)
    requires x > 0.0 && y > 0.0
    ensures x * y > 0.0
  {
  }

  /** q (x y) == x when y inverts q. */
  lemma SwapEnds(q: real, x: real, y: real)
    requires y * q == 1.0
    ensures q * (x * y) == x
  {
    Associate(x, y, q);
    assert q * (x * y) == (x * y) * q;
  }

  /** (f q - p) (x y) == f x - y when x inverts p and y inverts q. */
  lemma Divided(f: real, q: real, p: real, x: real, y: real)
    requires x * p == 1.0 && y * q == 1.0
    ensures (f * q - p) * (x * y) == f * x - y
  {
    MinusTimes(f * q, p, x * y);
    Associate(f, q, x * y);
    SwapEnds(q, x, y);
    SwapEnds(p, y, x);
    assert x * y == y * x;
  }

  lemma MinusTimes(a: real, b: real, z: real)
    ensures (a - b) * z == a * z - b * z
  {
  }

  lemma ScaleBounds(d: real, b: real, x: real)
    requires -b <= d <= b && x > 0.0
    ensures -(b * x) <= d * x <= b * x
  {
  }

  lemma FromAbove(f: uint64, m: nat, n: nat)
    requires AccurateAbove(f, Pow(10, n), Pow(2, m))
    ensures Accurate(Cached(f, m, n))
  {
    hide Pow;
    ProductAsReal(f, Pow(2, m));
  }

  lemma FromExact(f: uint64, m: int, n: int)
    requires m > 0 && n >= 0 && f == Pow(10, n) * Pow(2, m)
    ensures Accurate(Cached(f, -m, n))
  {
    hide Pow;
    ProductAsReal(Pow(10, n), Pow(2, m));
    Inverse(Pow(2, m) as real);
    Associate(Pow(10, n) as real, Pow(2, m) as real, 1.0 / (Pow(2, m) as real));
  }

  lemma TableFactors()
    ensures Pow(10, 8) == 100000000 && Pow(10, 4) == 10000 && Pow(10, 12) == 1000000000000
    ensures Pow(2, 26) == 0x4000000 && Pow(2, 27) == 0x8000000 && Pow(2, 24) == 0x1000000 && Pow(2, 3) == 8
    ensures Pow(2, 50) == 0x4000000000000 && Pow(2, 77) == 0x20000000000000000000
  {
    hide Pow;
    PowersOfTwo();
    FirstPowersOfTwo();
    TenThousand();
    PowAdd(10, 4, 4);
    PowAdd(10, 4, 8);
    PowAdd(2, 12, 12);
    PowAdd(2, 24, 3);
    PowAdd(2, 24, 2);
    PowAdd(2, 24, 26);
    PowAdd(2, 50, 27);
  }

  lemma TenThousand()
    ensures Pow(10, 4) == 10000
  {
    assert Pow(10, 2) == 100;
  }

  lemma Row37()
    ensures Pow(10, 4) == 10000
    ensures Pow(2, 77) == 0x20000000000000000000
    ensures Accurate(Cached(0xD1B71758E219652C, -77, -4))
  {
    hide Pow, Accurate;
    TableFactors();
    FromBelow(0xD1B71758E219652C, 77, 4);
  }

  lemma Row36()
    ensures Pow(10, 12) == 1000000000000
    ensures Pow(2, 103) == 0x80000000000000000000000000
    ensures Accurate(Cached(0x8CBCCC096F5088CC, -103, -12))
  {
    hide Pow, Accurate;
    TableFactors();
    Row37();
    PowAdd(10, 8, 4);
    PowAdd(2, 26, 77);
    FromBelow(0x8CBCCC096F5088CC, 103, 12);
  }

  lemma Row35()
    ensures Pow(10, 20) == 100000000000000000000
    ensures Pow(2, 130) == 0x400000000000000000000000000000000
    ensures Accurate(Cached(0xBCE5086492111AEB, -130, -20))
  {
    hide Pow, Accurate;
    TableFactors();
    Row36();
    PowAdd(10, 8, 12);
    PowAdd(2, 27, 103);
    FromBelow(0xBCE5086492111AEB, 130, 20);
  }

  lemma Row34()
    ensures Pow(10, 28) == 10000000000000000000000000000
    ensures Pow(2, 157) == 0x2000000000000000000000000000000000000000
    ensures Accurate(Cached(0xFD87B5F28300CA0E, -157, -28))
  {
    hide Pow, Accurate;
    TableFactors();
    Row35();
    PowAdd(10, 8, 20);
    PowAdd(2, 27, 130);
    FromBelow(0xFD87B5F28300CA0E, 157, 28);
  }

  lemma Row33()
    ensures Pow(10, 36) == 1000000000000000000000000000000000000
    ensures Pow(2, 183) == 0x8000000000000000000000000000000000000000000000
    ensures Accurate(Cached(0xAA242499697392D3, -183, -36))
  {
    hide Pow, Accurate;
    TableFactors();
    Row34();
    PowAdd(10, 8, 28);
    PowAdd(2, 26, 157);
    FromBelow(0xAA242499697392D3, 183, 36);
  }

  lemma Row32()
    ensures Pow(10, 44) == 100000000000000000000000000000000000000000000
    ensures Pow(2, 210) == 0x40000000000000000000000000000000000000000000000000000
    ensures Accurate(Cached(0xE45C10C42A2B3B06, -210, -44))
  {
    hide Pow, Accurate;
    TableFactors();
    Row33();
    PowAdd(10, 8, 36);
    PowAdd(2, 27, 183);
    FromBelow(0xE45C10C42A2B3B06, 210, 44);
  }

  lemma Row31()
    ensures Pow(10, 52) == 10000000000000000000000000000000000000000000000000000
    ensures Pow(2, 236) == 0x100000000000000000000000000000000000000000000000000000000000
    ensures Accurate(Cached(0x993FE2C6D07B7FAC, -236, -52))
  {
    hide Pow, Accurate;
    TableFactors();
    Row32();
    PowAdd(10, 8, 44);
    PowAdd(2, 26, 210);
    FromBelow(0x993FE2C6D07B7FAC, 236, 52);
  }

  lemma Row30()
    ensures Pow(10, 60) == 1000000000000000000000000000000000000000000000000000000000000
    ensures Pow(2, 263) == 0x800000000000000000000000000000000000000000000000000000000000000000
    ensures Accurate(Cached(0xCDB02555653131B6, -263, -60))
  {
    hide Pow, Accurate;
    TableFactors();
    Row31();
    PowAdd(10, 8, 52);
    PowAdd(2, 27, 236);
    FromBelow(0xCDB02555653131B6, 263, 60);
  }

  lemma Row29()
    ensures Pow(10, 68) == 100000000000000000000000000000000000000000000000000000000000000000000
    ensures Pow(2, 289) == 0x2000000000000000000000000000000000000000000000000000000000000000000000000
    ensures Accurate(Cached(0x8A08F0F8BF0F156B, -289, -68))
  {
    hide Pow, Accurate;
    TableFactors();
    Row30();
    PowAdd(10, 8, 60);
    PowAdd(2, 26, 263);
    FromBelow(0x8A08F0F8BF0F156B, 289, 68);
  }

  lemma Row28()
    ensures Pow(10, 76) == 10000000000000000000000000000000000000000000000000000000000000000000000000000
    ensures Pow(2, 316) == 0x10000000000000000000000000000000000000000000000000000000000000000000000000000000
    ensures Accurate(Cached(0xB94470938FA89BCF, -316, -76))
  {
    hide Pow, Accurate;
    TableFactors();
    Row29();
    PowAdd(10, 8, 68);
    PowAdd(2, 27, 289);
    FromBelow(0xB94470938FA89BCF, 316, 76);
  }

  lemma Row27()
    ensures Pow(10, 84) == 1000000000000000000000000000000000000000000000000000000000000000000000000000000000000
    ensures Pow(2, 343) == 0x80000000000000000000000000000000000000000000000000000000000000000000000000000000000000
    ensures Accurate(Cached(0xF8A95FCF88747D94, -343, -84))
  {
    hide Pow, Accurate;
    TableFactors();
    Row28();
    PowAdd(10, 8, 76);
    PowAdd(2, 27, 316);
    FromBelow(0xF8A95FCF88747D94, 343, 84);
  }

  lemma Row26()
    ensures Pow(10, 92) == 100000000000000000000000000000000000000000000000000000000000000000000000000000000000000000000
    ensures Pow(2, 369) == 0x200000000000000000000000000000000000000000000000000000000000000000000000000000000000000000000
    ensures Accurate(Cached(0xA6DFBD9FB8E5B88F, -369, -92))
  {
    hide Pow, Accurate;
    TableFactors();
    Row27();
    PowAdd(10, 8, 84);
    PowAdd(2, 26, 343);
    FromBelow(0xA6DFBD9FB8E5B88F, 369, 92);
  }

  lemma Row25()
    ensures Pow(10, 100) == 10000000000000000000000000000000000000000000000000000000000000000000000000000000000000000000000000000
    ensures Pow(2, 396) == 0x1000000000000000000000000000000000000000000000000000000000000000000000000000000000000000000000000000
    ensures Accurate(Cached(0xDFF9772470297EBD, -396, -100))
  {
    hide Pow, Accurate;
    TableFactors();
    Row26();
    PowAdd(10, 8, 92);
    PowAdd(2, 27, 369);
    FromBelow(0xDFF9772470297EBD, 396, 100);
  }

  lemma Row24()
    ensures Pow(10, 108) == 1000000000000000000000000000000000000000000000000000000000000000000000000000000000000000000000000000000000000
    ensures Pow(2, 422) == 0x4000000000000000000000000000000000000000000000000000000000000000000000000000000000000000000000000000000000
    ensures Accurate(Cached(0x964E858C91BA2655, -422, -108))
  {
    hide Pow, Accurate;
    TableFactors();
    Row25();
    PowAdd(10, 8, 100);
    PowAdd(2, 26, 396);
    FromBelow(0x964E858C91BA2655, 422, 108);
  }

  lemma Row23()
    ensures Pow(10, 116) == 100000000000000000000000000000000000000000000000000000000000000000000000000000000000000000000000000000000000000000000
    ensures Pow(2, 449) == 0x20000000000000000000000000000000000000000000000000000000000000000000000000000000000000000000000000000000000000000
    ensures Accurate(Cached(0xC9BCFF6034C13053, -449, -116))
  {
    hide Pow, Accurate;
    TableFactors();
    Row24();
    PowAdd(10, 8, 108);
    PowAdd(2, 27, 422);
    FromBelow(0xC9BCFF6034C13053, 449, 116);
  }

  lemma Row22()
    ensures Pow(10, 124) == 10000000000000000000000000000000000000000000000000000000000000000000000000000000000000000000000000000000000000000000000000000
    ensures Pow(2, 475) == 0x80000000000000000000000000000000000000000000000000000000000000000000000000000000000000000000000000000000000000000000000
    ensures Accurate(Cached(0x87625F056C7C4A8B, -475, -124))
  {
    hide Pow, Accurate;
    TableFactors();
    Row23();
    PowAdd(10, 8, 116);
    PowAdd(2, 26, 449);
    FromBelow(0x87625F056C7C4A8B, 475, 124);
  }

  lemma Row21()
    ensures Pow(10, 132) == 1000000000000000000000000000000000000000000000000000000000000000000000000000000000000000000000000000000000000000000000000000000000000
    ensures Pow(2, 502) == 0x400000000000000000000000000000000000000000000000000000000000000000000000000000000000000000000000000000000000000000000000000000
    ensures Accurate(Cached(0xB5B5ADA8AAFF80B8, -502, -132))
  {
    hide Pow, Accurate;
    TableFactors();
    Row22();
    PowAdd(10, 8, 124);
    PowAdd(2, 27, 475);
    FromBelow(0xB5B5ADA8AAFF80B8, 502, 132);
  }

  lemma Row20()
    ensures Pow(10, 140) == 100000000000000000000000000000000000000000000000000000000000000000000000000000000000000000000000000000000000000000000000000000000000000000000
    ensures Pow(2, 529) == 0x2000000000000000000000000000000000000000000000000000000000000000000000000000000000000000000000000000000000000000000000000000000000000
    ensures Accurate(Cached(0xF3E2F893DEC3F126, -529, -140))
  {
    hide Pow, Accurate;
    TableFactors();
    Row21();
    PowAdd(10, 8, 132);
    PowAdd(2, 27, 502);
    FromBelow(0xF3E2F893DEC3F126, 529, 140);
  }

  lemma Row19()
    ensures Pow(10, 148) == 10000000000000000000000000000000000000000000000000000000000000000000000000000000000000000000000000000000000000000000000000000000000000000000000000000
    ensures Pow(2, 555) == 0x8000000000000000000000000000000000000000000000000000000000000000000000000000000000000000000000000000000000000000000000000000000000000000000
    ensures Accurate(Cached(0xA3AB66580D5FDAF6, -555, -148))
  {
    hide Pow, Accurate;
    TableFactors();
    Row20();
    PowAdd(10, 8, 140);
    PowAdd(2, 26, 529);
    FromBelow(0xA3AB66580D5FDAF6, 555, 148);
  }

  lemma Row18()
    ensures Pow(10, 156) == 1000000000000000000000000000000000000000000000000000000000000000000000000000000000000000000000000000000000000000000000000000000000000000000000000000000000000
    ensures Pow(2, 582) == 0x40000000000000000000000000000000000000000000000000000000000000000000000000000000000000000000000000000000000000000000000000000000000000000000000000
    ensures Accurate(Cached(0xDBAC6C247D62A584, -582, -156))
  {
    hide Pow, Accurate;
    TableFactors();
    Row19();
    PowAdd(10, 8, 148);
    PowAdd(2, 27, 555);
    FromBelow(0xDBAC6C247D62A584, 582, 156);
  }

  lemma Row17()
    ensures Pow(10, 164) == 100000000000000000000000000000000000000000000000000000000000000000000000000000000000000000000000000000000000000000000000000000000000000000000000000000000000000000000
    ensures Pow(2, 608) == 0x100000000000000000000000000000000000000000000000000000000000000000000000000000000000000000000000000000000000000000000000000000000000000000000000000000000
    ensures Accurate(Cached(0x936B9FCEBB25C996, -608, -164))
  {
    hide Pow, Accurate;
    TableFactors();
    Row18();
    PowAdd(10, 8, 156);
    PowAdd(2, 26, 582);
    FromBelow(0x936B9FCEBB25C996, 608, 164);
  }

  lemma Row16()
    ensures Pow(10, 172) == 10000000000000000000000000000000000000000000000000000000000000000000000000000000000000000000000000000000000000000000000000000000000000000000000000000000000000000000000000000
    ensures Pow(2, 635) == 0x800000000000000000000000000000000000000000000000000000000000000000000000000000000000000000000000000000000000000000000000000000000000000000000000000000000000000
    ensures Accurate(Cached(0xC5DD44271AD3CDBA, -635, -172))
  {
    hide Pow, Accurate;
    TableFactors();
    Row17();
    PowAdd(10, 8, 164);
    PowAdd(2, 27, 608);
    FromBelow(0xC5DD44271AD3CDBA, 635, 172);
  }

  lemma Row15()
    ensures Pow(10, 180) == 1000000000000000000000000000000000000000000000000000000000000000000000000000000000000000000000000000000000000000000000000000000000000000000000000000000000000000000000000000000000000
    ensures Pow(2, 661) == 0x2000000000000000000000000000000000000000000000000000000000000000000000000000000000000000000000000000000000000000000000000000000000000000000000000000000000000000000000
    ensures Accurate(Cached(0x84C8D4DFD2C63F3B, -661, -180))
  {
    hide Pow, Accurate;
    TableFactors();
    Row16();
    PowAdd(10, 8, 172);
    PowAdd(2, 26, 635);
    FromBelow(0x84C8D4DFD2C63F3B, 661, 180);
  }

  lemma Row14()
    ensures Pow(10, 188) == 100000000000000000000000000000000000000000000000000000000000000000000000000000000000000000000000000000000000000000000000000000000000000000000000000000000000000000000000000000000000000000000
    ensures Pow(2, 688) == 0x10000000000000000000000000000000000000000000000000000000000000000000000000000000000000000000000000000000000000000000000000000000000000000000000000000000000000000000000000000
    ensures Accurate(Cached(0xB23867FB2A35B28E, -688, -188))
  {
    hide Pow, Accurate;
    TableFactors();
    Row15();
    PowAdd(10, 8, 180);
    PowAdd(2, 27, 661);
    FromBelow(0xB23867FB2A35B28E, 688, 188);
  }

  lemma Row13()
    ensures Pow(10, 196) == 10000000000000000000000000000000000000000000000000000000000000000000000000000000000000000000000000000000000000000000000000000000000000000000000000000000000000000000000000000000000000000000000000000
    ensures Pow(2, 715) == 0x80000000000000000000000000000000000000000000000000000000000000000000000000000000000000000000000000000000000000000000000000000000000000000000000000000000000000000000000000000000000
    ensures Accurate(Cached(0xEF340A98172AACE5, -715, -196))
  {
    hide Pow, Accurate;
    TableFactors();
    Row14();
    PowAdd(10, 8, 188);
    PowAdd(2, 27, 688);
    FromBelow(0xEF340A98172AACE5, 715, 196);
  }

  lemma Row12()
    ensures Pow(10, 204) == 1000000000000000000000000000000000000000000000000000000000000000000000000000000000000000000000000000000000000000000000000000000000000000000000000000000000000000000000000000000000000000000000000000000000000
    ensures Pow(2, 741) == 0x200000000000000000000000000000000000000000000000000000000000000000000000000000000000000000000000000000000000000000000000000000000000000000000000000000000000000000000000000000000000000000
    ensures Accurate(Cached(0xA086CFCD97BF97F4, -741, -204))
  {
    hide Pow, Accurate;
    TableFactors();
    Row13();
    PowAdd(10, 8, 196);
    PowAdd(2, 26, 715);
    FromBelow(0xA086CFCD97BF97F4, 741, 204);
  }

  lemma Row11()
    ensures Pow(10, 212) == 100000000000000000000000000000000000000000000000000000000000000000000000000000000000000000000000000000000000000000000000000000000000000000000000000000000000000000000000000000000000000000000000000000000000000000000
    ensures Pow(2, 768) == 0x1000000000000000000000000000000000000000000000000000000000000000000000000000000000000000000000000000000000000000000000000000000000000000000000000000000000000000000000000000000000000000000000000
    ensures Accurate(Cached(0xD77485CB25823AC7, -768, -212))
  {
    hide Pow, Accurate;
    TableFactors();
    Row12();
    PowAdd(10, 8, 204);
    PowAdd(2, 27, 741);
    FromBelow(0xD77485CB25823AC7, 768, 212);
  }

  lemma Row10()
    ensures Pow(10, 220) == 10000000000000000000000000000000000000000000000000000000000000000000000000000000000000000000000000000000000000000000000000000000000000000000000000000000000000000000000000000000000000000000000000000000000000000000000000000
    ensures Pow(2, 794) == 0x4000000000000000000000000000000000000000000000000000000000000000000000000000000000000000000000000000000000000000000000000000000000000000000000000000000000000000000000000000000000000000000000000000000
    ensures Accurate(Cached(0x9096EA6F3848984F, -794, -220))
  {
    hide Pow, Accurate;
    TableFactors();
    Row11();
    PowAdd(10, 8, 212);
    PowAdd(2, 26, 768);
    FromBelow(0x9096EA6F3848984F, 794, 220);
  }

  lemma Row9()
    ensures Pow(10, 228) == 1000000000000000000000000000000000000000000000000000000000000000000000000000000000000000000000000000000000000000000000000000000000000000000000000000000000000000000000000000000000000000000000000000000000000000000000000000000000000
    ensures Pow(2, 821) == 0x20000000000000000000000000000000000000000000000000000000000000000000000000000000000000000000000000000000000000000000000000000000000000000000000000000000000000000000000000000000000000000000000000000000000000
    ensures Accurate(Cached(0xC21094364DFB5637, -821, -228))
  {
    hide Pow, Accurate;
    TableFactors();
    Row10();
    PowAdd(10, 8, 220);
    PowAdd(2, 27, 794);
    FromBelow(0xC21094364DFB5637, 821, 228);
  }

  lemma Row8()
    ensures Pow(10, 236) == 100000000000000000000000000000000000000000000000000000000000000000000000000000000000000000000000000000000000000000000000000000000000000000000000000000000000000000000000000000000000000000000000000000000000000000000000000000000000000000000
    ensures Pow(2, 847) == 0x80000000000000000000000000000000000000000000000000000000000000000000000000000000000000000000000000000000000000000000000000000000000000000000000000000000000000000000000000000000000000000000000000000000000000000000
    ensures Accurate(Cached(0x823C12795DB6CE57, -847, -236))
  {
    hide Pow, Accurate;
    TableFactors();
    Row9();
    PowAdd(10, 8, 228);
    PowAdd(2, 26, 821);
    FromBelow(0x823C12795DB6CE57, 847, 236);
  }

  lemma Row7()
    ensures Pow(10, 244) == 10000000000000000000000000000000000000000000000000000000000000000000000000000000000000000000000000000000000000000000000000000000000000000000000000000000000000000000000000000000000000000000000000000000000000000000000000000000000000000000000000000
    ensures Pow(2, 874) == 0x400000000000000000000000000000000000000000000000000000000000000000000000000000000000000000000000000000000000000000000000000000000000000000000000000000000000000000000000000000000000000000000000000000000000000000000000000
    ensures Accurate(Cached(0xAECC49914078536D, -874, -244))
  {
    hide Pow, Accurate;
    TableFactors();
    Row8();
    PowAdd(10, 8, 236);
    PowAdd(2, 27, 847);
    FromBelow(0xAECC49914078536D, 874, 244);
  }

  lemma Row6()
    ensures Pow(10, 252) == 1000000000000000000000000000000000000000000000000000000000000000000000000000000000000000000000000000000000000000000000000000000000000000000000000000000000000000000000000000000000000000000000000000000000000000000000000000000000000000000000000000000000000
    ensures Pow(2, 901) == 0x2000000000000000000000000000000000000000000000000000000000000000000000000000000000000000000000000000000000000000000000000000000000000000000000000000000000000000000000000000000000000000000000000000000000000000000000000000000000
    ensures Accurate(Cached(0xEA9C227723EE8BCB, -901, -252))
  {
    hide Pow, Accurate;
    TableFactors();
    Row7();
    PowAdd(10, 8, 244);
    PowAdd(2, 27, 874);
    FromBelow(0xEA9C227723EE8BCB, 901, 252);
  }

  lemma Row5()
    ensures Pow(10, 260) == 100000000000000000000000000000000000000000000000000000000000000000000000000000000000000000000000000000000000000000000000000000000000000000000000000000000000000000000000000000000000000000000000000000000000000000000000000000000000000000000000000000000000000000000
    ensures Pow(2, 927) == 0x8000000000000000000000000000000000000000000000000000000000000000000000000000000000000000000000000000000000000000000000000000000000000000000000000000000000000000000000000000000000000000000000000000000000000000000000000000000000000000
    ensures Accurate(Cached(0x9D71AC8FADA6C9B5, -927, -260))
  {
    hide Pow, Accurate;
    TableFactors();
    Row6();
    PowAdd(10, 8, 252);
    PowAdd(2, 26, 901);
    FromBelow(0x9D71AC8FADA6C9B5, 927, 260);
  }

  lemma Row4()
    ensures Pow(10, 268) == 10000000000000000000000000000000000000000000000000000000000000000000000000000000000000000000000000000000000000000000000000000000000000000000000000000000000000000000000000000000000000000000000000000000000000000000000000000000000000000000000000000000000000000000000000000
    ensures Pow(2, 954) == 0x40000000000000000000000000000000000000000000000000000000000000000000000000000000000000000000000000000000000000000000000000000000000000000000000000000000000000000000000000000000000000000000000000000000000000000000000000000000000000000000000
    ensures Accurate(Cached(0xD3515C2831559A83, -954, -268))
  {
    hide Pow, Accurate;
    TableFactors();
    Row5();
    PowAdd(10, 8, 260);
    PowAdd(2, 27, 927);
    FromBelow(0xD3515C2831559A83, 954, 268);
  }

  lemma Row3()
    ensures Pow(10, 276) == 1000000000000000000000000000000000000000000000000000000000000000000000000000000000000000000000000000000000000000000000000000000000000000000000000000000000000000000000000000000000000000000000000000000000000000000000000000000000000000000000000000000000000000000000000000000000000
    ensures Pow(2, 980) == 0x100000000000000000000000000000000000000000000000000000000000000000000000000000000000000000000000000000000000000000000000000000000000000000000000000000000000000000000000000000000000000000000000000000000000000000000000000000000000000000000000000000
    ensures Accurate(Cached(0x8DD01FAD907FFC3C, -980, -276))
  {
    hide Pow, Accurate;
    TableFactors();
    Row4();
    PowAdd(10, 8, 268);
    PowAdd(2, 26, 954);
    FromBelow(0x8DD01FAD907FFC3C, 980, 276);
  }

  lemma Row2()
    ensures Pow(10, 284) == 100000000000000000000000000000000000000000000000000000000000000000000000000000000000000000000000000000000000000000000000000000000000000000000000000000000000000000000000000000000000000000000000000000000000000000000000000000000000000000000000000000000000000000000000000000000000000000000
    ensures Pow(2, 1007) == 0x800000000000000000000000000000000000000000000000000000000000000000000000000000000000000000000000000000000000000000000000000000000000000000000000000000000000000000000000000000000000000000000000000000000000000000000000000000000000000000000000000000000000
    ensures Accurate(Cached(0xBE5691EF416BD60C, -1007, -284))
  {
    hide Pow, Accurate;
    TableFactors();
    Row3();
    PowAdd(10, 8, 276);
    PowAdd(2, 27, 980);
    FromBelow(0xBE5691EF416BD60C, 1007, 284);
  }

  lemma Row1()
    ensures Pow(10, 292) == 10000000000000000000000000000000000000000000000000000000000000000000000000000000000000000000000000000000000000000000000000000000000000000000000000000000000000000000000000000000000000000000000000000000000000000000000000000000000000000000000000000000000000000000000000000000000000000000000000000
    ensures Pow(2, 1034) == 0x4000000000000000000000000000000000000000000000000000000000000000000000000000000000000000000000000000000000000000000000000000000000000000000000000000000000000000000000000000000000000000000000000000000000000000000000000000000000000000000000000000000000000000000
    ensures Accurate(Cached(0xFF77B1FCBEBCDC4F, -1034, -292))
  {
    hide Pow, Accurate;
    TableFactors();
    Row2();
    PowAdd(10, 8, 284);
    PowAdd(2, 27, 1007);
    FromBelow(0xFF77B1FCBEBCDC4F, 1034, 292);
  }

  lemma Row0()
    ensures Pow(10, 300) == 1000000000000000000000000000000000000000000000000000000000000000000000000000000000000000000000000000000000000000000000000000000000000000000000000000000000000000000000000000000000000000000000000000000000000000000000000000000000000000000000000000000000000000000000000000000000000000000000000000000000000
    ensures Pow(2, 1060) == 0x10000000000000000000000000000000000000000000000000000000000000000000000000000000000000000000000000000000000000000000000000000000000000000000000000000000000000000000000000000000000000000000000000000000000000000000000000000000000000000000000000000000000000000000000000
    ensures Accurate(Cached(0xAB70FE17C79AC6CA, -1060, -300))
  {
    hide Pow, Accurate;
    TableFactors();
    Row1();
    PowAdd(10, 8, 292);
    PowAdd(2, 26, 1034);
    FromBelow(0xAB70FE17C79AC6CA, 1060, 300);
  }

  lemma Row38()
    ensures Pow(10, 4) == 10000
    ensures Pow(2, 50) == 0x4000000000000
    ensures Accurate(Cached(0x9C40000000000000, -50, 4))
  {
    hide Pow, Accurate;
    TableFactors();
    FromExact(0x9C40000000000000, 50, 4);
  }

  lemma Row39()
    ensures Pow(10, 12) == 1000000000000
    ensures Pow(2, 24) == 0x1000000
    ensures Accurate(Cached(0xE8D4A51000000000, -24, 12))
  {
    hide Pow, Accurate;
    TableFactors();
    FromExact(0xE8D4A51000000000, 24, 12);
  }

  lemma Row40()
    ensures Pow(10, 20) == 100000000000000000000
    ensures Pow(2, 3) == 0x8
    ensures Accurate(Cached(0xAD78EBC5AC620000, 3, 20))
  {
    hide Pow, Accurate;
    TableFactors();
    PowAdd(10, 8, 12);
    FromAbove(0xAD78EBC5AC620000, 3, 20);
  }

  lemma Row41()
    ensures Pow(10, 28) == 10000000000000000000000000000
    ensures Pow(2, 30) == 0x40000000
    ensures Accurate(Cached(0x813F3978F8940984, 30, 28))
  {
    hide Pow, Accurate;
    TableFactors();
    Row40();
    PowAdd(10, 8, 20);
    PowAdd(2, 27, 3);
    FromAbove(0x813F3978F8940984, 30, 28);
  }

  lemma Row42()
    ensures Pow(10, 36) == 1000000000000000000000000000000000000
    ensures Pow(2, 56) == 0x100000000000000
    ensures Accurate(Cached(0xC097CE7BC90715B3, 56, 36))
  {
    hide Pow, Accurate;
    TableFactors();
    Row41();
    PowAdd(10, 8, 28);
    PowAdd(2, 26, 30);
    FromAbove(0xC097CE7BC90715B3, 56, 36);
  }

  lemma Row43()
    ensures Pow(10, 44) == 100000000000000000000000000000000000000000000
    ensures Pow(2, 83) == 0x800000000000000000000
    ensures Accurate(Cached(0x8F7E32CE7BEA5C70, 83, 44))
  {
    hide Pow, Accurate;
    TableFactors();
    Row42();
    PowAdd(10, 8, 36);
    PowAdd(2, 27, 56);
    FromAbove(0x8F7E32CE7BEA5C70, 83, 44);
  }

  lemma Row44()
    ensures Pow(10, 52) == 10000000000000000000000000000000000000000000000000000
    ensures Pow(2, 109) == 0x2000000000000000000000000000
    ensures Accurate(Cached(0xD5D238A4ABE98068, 109, 52))
  {
    hide Pow, Accurate;
    TableFactors();
    Row43();
    PowAdd(10, 8, 44);
    PowAdd(2, 26, 83);
    FromAbove(0xD5D238A4ABE98068, 109, 52);
  }

  lemma Row45()
    ensures Pow(10, 60) == 1000000000000000000000000000000000000000000000000000000000000
    ensures Pow(2, 136) == 0x10000000000000000000000000000000000
    ensures Accurate(Cached(0x9F4F2726179A2245, 136, 60))
  {
    hide Pow, Accurate;
    TableFactors();
    Row44();
    PowAdd(10, 8, 52);
    PowAdd(2, 27, 109);
    FromAbove(0x9F4F2726179A2245, 136, 60);
  }

  lemma Row46()
    ensures Pow(10, 68) == 100000000000000000000000000000000000000000000000000000000000000000000
    ensures Pow(2, 162) == 0x40000000000000000000000000000000000000000
    ensures Accurate(Cached(0xED63A231D4C4FB27, 162, 68))
  {
    hide Pow, Accurate;
    TableFactors();
    Row45();
    PowAdd(10, 8, 60);
    PowAdd(2, 26, 136);
    FromAbove(0xED63A231D4C4FB27, 162, 68);
  }

  lemma Row47()
    ensures Pow(10, 76) == 10000000000000000000000000000000000000000000000000000000000000000000000000000
    ensures Pow(2, 189) == 0x200000000000000000000000000000000000000000000000
    ensures Accurate(Cached(0xB0DE65388CC8ADA8, 189, 76))
  {
    hide Pow, Accurate;
    TableFactors();
    Row46();
    PowAdd(10, 8, 68);
    PowAdd(2, 27, 162);
    FromAbove(0xB0DE65388CC8ADA8, 189, 76);
  }

  lemma Row48()
    ensures Pow(10, 84) == 1000000000000000000000000000000000000000000000000000000000000000000000000000000000000
    ensures Pow(2, 216) == 0x1000000000000000000000000000000000000000000000000000000
    ensures Accurate(Cached(0x83C7088E1AAB65DB, 216, 84))
  {
    hide Pow, Accurate;
    TableFactors();
    Row47();
    PowAdd(10, 8, 76);
    PowAdd(2, 27, 189);
    FromAbove(0x83C7088E1AAB65DB, 216, 84);
  }

  lemma Row49()
    ensures Pow(10, 92) == 100000000000000000000000000000000000000000000000000000000000000000000000000000000000000000000
    ensures Pow(2, 242) == 0x4000000000000000000000000000000000000000000000000000000000000
    ensures Accurate(Cached(0xC45D1DF942711D9A, 242, 92))
  {
    hide Pow, Accurate;
    TableFactors();
    Row48();
    PowAdd(10, 8, 84);
    PowAdd(2, 26, 216);
    FromAbove(0xC45D1DF942711D9A, 242, 92);
  }

  lemma Row50()
    ensures Pow(10, 100) == 10000000000000000000000000000000000000000000000000000000000000000000000000000000000000000000000000000
    ensures Pow(2, 269) == 0x20000000000000000000000000000000000000000000000000000000000000000000
    ensures Accurate(Cached(0x924D692CA61BE758, 269, 100))
  {
    hide Pow, Accurate;
    TableFactors();
    Row49();
    PowAdd(10, 8, 92);
    PowAdd(2, 27, 242);
    FromAbove(0x924D692CA61BE758, 269, 100);
  }

  lemma Row51()
    ensures Pow(10, 108) == 1000000000000000000000000000000000000000000000000000000000000000000000000000000000000000000000000000000000000
    ensures Pow(2, 295) == 0x80000000000000000000000000000000000000000000000000000000000000000000000000
    ensures Accurate(Cached(0xDA01EE641A708DEA, 295, 108))
  {
    hide Pow, Accurate;
    TableFactors();
    Row50();
    PowAdd(10, 8, 100);
    PowAdd(2, 26, 269);
    FromAbove(0xDA01EE641A708DEA, 295, 108);
  }

  lemma Row52()
    ensures Pow(10, 116) == 100000000000000000000000000000000000000000000000000000000000000000000000000000000000000000000000000000000000000000000
    ensures Pow(2, 322) == 0x400000000000000000000000000000000000000000000000000000000000000000000000000000000
    ensures Accurate(Cached(0xA26DA3999AEF774A, 322, 116))
  {
    hide Pow, Accurate;
    TableFactors();
    Row51();
    PowAdd(10, 8, 108);
    PowAdd(2, 27, 295);
    FromAbove(0xA26DA3999AEF774A, 322, 116);
  }

  lemma Row53()
    ensures Pow(10, 124) == 10000000000000000000000000000000000000000000000000000000000000000000000000000000000000000000000000000000000000000000000000000
    ensures Pow(2, 348) == 0x1000000000000000000000000000000000000000000000000000000000000000000000000000000000000000
    ensures Accurate(Cached(0xF209787BB47D6B85, 348, 124))
  {
    hide Pow, Accurate;
    TableFactors();
    Row52();
    PowAdd(10, 8, 116);
    PowAdd(2, 26, 322);
    FromAbove(0xF209787BB47D6B85, 348, 124);
  }

  lemma Row54()
    ensures Pow(10, 132) == 1000000000000000000000000000000000000000000000000000000000000000000000000000000000000000000000000000000000000000000000000000000000000
    ensures Pow(2, 375) == 0x8000000000000000000000000000000000000000000000000000000000000000000000000000000000000000000000
    ensures Accurate(Cached(0xB454E4A179DD1877, 375, 132))
  {
    hide Pow, Accurate;
    TableFactors();
    Row53();
    PowAdd(10, 8, 124);
    PowAdd(2, 27, 348);
    FromAbove(0xB454E4A179DD1877, 375, 132);
  }

  lemma Row55()
    ensures Pow(10, 140) == 100000000000000000000000000000000000000000000000000000000000000000000000000000000000000000000000000000000000000000000000000000000000000000000
    ensures Pow(2, 402) == 0x40000000000000000000000000000000000000000000000000000000000000000000000000000000000000000000000000000
    ensures Accurate(Cached(0x865B86925B9BC5C2, 402, 140))
  {
    hide Pow, Accurate;
    TableFactors();
    Row54();
    PowAdd(10, 8, 132);
    PowAdd(2, 27, 375);
    FromAbove(0x865B86925B9BC5C2, 402, 140);
  }

  lemma Row56()
    ensures Pow(10, 148) == 10000000000000000000000000000000000000000000000000000000000000000000000000000000000000000000000000000000000000000000000000000000000000000000000000000
    ensures Pow(2, 428) == 0x100000000000000000000000000000000000000000000000000000000000000000000000000000000000000000000000000000000000
    ensures Accurate(Cached(0xC83553C5C8965D3D, 428, 148))
  {
    hide Pow, Accurate;
    TableFactors();
    Row55();
    PowAdd(10, 8, 140);
    PowAdd(2, 26, 402);
    FromAbove(0xC83553C5C8965D3D, 428, 148);
  }

  lemma Row57()
    ensures Pow(10, 156) == 1000000000000000000000000000000000000000000000000000000000000000000000000000000000000000000000000000000000000000000000000000000000000000000000000000000000000
    ensures Pow(2, 455) == 0x800000000000000000000000000000000000000000000000000000000000000000000000000000000000000000000000000000000000000000
    ensures Accurate(Cached(0x952AB45CFA97A0B3, 455, 156))
  {
    hide Pow, Accurate;
    TableFactors();
    Row56();
    PowAdd(10, 8, 148);
    PowAdd(2, 27, 428);
    FromAbove(0x952AB45CFA97A0B3, 455, 156);
  }

  lemma Row58()
    ensures Pow(10, 164) == 100000000000000000000000000000000000000000000000000000000000000000000000000000000000000000000000000000000000000000000000000000000000000000000000000000000000000000000
    ensures Pow(2, 481) == 0x2000000000000000000000000000000000000000000000000000000000000000000000000000000000000000000000000000000000000000000000000
    ensures Accurate(Cached(0xDE469FBD99A05FE3, 481, 164))
  {
    hide Pow, Accurate;
    TableFactors();
    Row57();
    PowAdd(10, 8, 156);
    PowAdd(2, 26, 455);
    FromAbove(0xDE469FBD99A05FE3, 481, 164);
  }

  lemma Row59()
    ensures Pow(10, 172) == 10000000000000000000000000000000000000000000000000000000000000000000000000000000000000000000000000000000000000000000000000000000000000000000000000000000000000000000000000000
    ensures Pow(2, 508) == 0x10000000000000000000000000000000000000000000000000000000000000000000000000000000000000000000000000000000000000000000000000000000
    ensures Accurate(Cached(0xA59BC234DB398C25, 508, 172))
  {
    hide Pow, Accurate;
    TableFactors();
    Row58();
    PowAdd(10, 8, 164);
    PowAdd(2, 27, 481);
    FromAbove(0xA59BC234DB398C25, 508, 172);
  }

  lemma Row60()
    ensures Pow(10, 180) == 1000000000000000000000000000000000000000000000000000000000000000000000000000000000000000000000000000000000000000000000000000000000000000000000000000000000000000000000000000000000000
    ensures Pow(2, 534) == 0x40000000000000000000000000000000000000000000000000000000000000000000000000000000000000000000000000000000000000000000000000000000000000
    ensures Accurate(Cached(0xF6C69A72A3989F5C, 534, 180))
  {
    hide Pow, Accurate;
    TableFactors();
    Row59();
    PowAdd(10, 8, 172);
    PowAdd(2, 26, 508);
    FromAbove(0xF6C69A72A3989F5C, 534, 180);
  }

  lemma Row61()
    ensures Pow(10, 188) == 100000000000000000000000000000000000000000000000000000000000000000000000000000000000000000000000000000000000000000000000000000000000000000000000000000000000000000000000000000000000000000000
    ensures Pow(2, 561) == 0x200000000000000000000000000000000000000000000000000000000000000000000000000000000000000000000000000000000000000000000000000000000000000000000
    ensures Accurate(Cached(0xB7DCBF5354E9BECE, 561, 188))
  {
    hide Pow, Accurate;
    TableFactors();
    Row60();
    PowAdd(10, 8, 180);
    PowAdd(2, 27, 534);
    FromAbove(0xB7DCBF5354E9BECE, 561, 188);
  }

  lemma Row62()
    ensures Pow(10, 196) == 10000000000000000000000000000000000000000000000000000000000000000000000000000000000000000000000000000000000000000000000000000000000000000000000000000000000000000000000000000000000000000000000000000
    ensures Pow(2, 588) == 0x1000000000000000000000000000000000000000000000000000000000000000000000000000000000000000000000000000000000000000000000000000000000000000000000000000
    ensures Accurate(Cached(0x88FCF317F22241E2, 588, 196))
  {
    hide Pow, Accurate;
    TableFactors();
    Row61();
    PowAdd(10, 8, 188);
    PowAdd(2, 27, 561);
    FromAbove(0x88FCF317F22241E2, 588, 196);
  }

  lemma Row63()
    ensures Pow(10, 204) == 1000000000000000000000000000000000000000000000000000000000000000000000000000000000000000000000000000000000000000000000000000000000000000000000000000000000000000000000000000000000000000000000000000000000000
    ensures Pow(2, 614) == 0x4000000000000000000000000000000000000000000000000000000000000000000000000000000000000000000000000000000000000000000000000000000000000000000000000000000000
    ensures Accurate(Cached(0xCC20CE9BD35C78A5, 614, 204))
  {
    hide Pow, Accurate;
    TableFactors();
    Row62();
    PowAdd(10, 8, 196);
    PowAdd(2, 26, 588);
    FromAbove(0xCC20CE9BD35C78A5, 614, 204);
  }

  lemma Row64()
    ensures Pow(10, 212) == 100000000000000000000000000000000000000000000000000000000000000000000000000000000000000000000000000000000000000000000000000000000000000000000000000000000000000000000000000000000000000000000000000000000000000000000
    ensures Pow(2, 641) == 0x20000000000000000000000000000000000000000000000000000000000000000000000000000000000000000000000000000000000000000000000000000000000000000000000000000000000000000
    ensures Accurate(Cached(0x98165AF37B2153DF, 641, 212))
  {
    hide Pow, Accurate;
    TableFactors();
    Row63();
    PowAdd(10, 8, 204);
    PowAdd(2, 27, 614);
    FromAbove(0x98165AF37B2153DF, 641, 212);
  }

  lemma Row65()
    ensures Pow(10, 220) == 10000000000000000000000000000000000000000000000000000000000000000000000000000000000000000000000000000000000000000000000000000000000000000000000000000000000000000000000000000000000000000000000000000000000000000000000000000
    ensures Pow(2, 667) == 0x80000000000000000000000000000000000000000000000000000000000000000000000000000000000000000000000000000000000000000000000000000000000000000000000000000000000000000000000
    ensures Accurate(Cached(0xE2A0B5DC971F303A, 667, 220))
  {
    hide Pow, Accurate;
    TableFactors();
    Row64();
    PowAdd(10, 8, 212);
    PowAdd(2, 26, 641);
    FromAbove(0xE2A0B5DC971F303A, 667, 220);
  }

  lemma Row66()
    ensures Pow(10, 228) == 1000000000000000000000000000000000000000000000000000000000000000000000000000000000000000000000000000000000000000000000000000000000000000000000000000000000000000000000000000000000000000000000000000000000000000000000000000000000000
    ensures Pow(2, 694) == 0x400000000000000000000000000000000000000000000000000000000000000000000000000000000000000000000000000000000000000000000000000000000000000000000000000000000000000000000000000000
    ensures Accurate(Cached(0xA8D9D1535CE3B396, 694, 228))
  {
    hide Pow, Accurate;
    TableFactors();
    Row65();
    PowAdd(10, 8, 220);
    PowAdd(2, 27, 667);
    FromAbove(0xA8D9D1535CE3B396, 694, 228);
  }

  lemma Row67()
    ensures Pow(10, 236) == 100000000000000000000000000000000000000000000000000000000000000000000000000000000000000000000000000000000000000000000000000000000000000000000000000000000000000000000000000000000000000000000000000000000000000000000000000000000000000000000
    ensures Pow(2, 720) == 0x1000000000000000000000000000000000000000000000000000000000000000000000000000000000000000000000000000000000000000000000000000000000000000000000000000000000000000000000000000000000000
    ensures Accurate(Cached(0xFB9B7CD9A4A7443C, 720, 236))
  {
    hide Pow, Accurate;
    TableFactors();
    Row66();
    PowAdd(10, 8, 228);
    PowAdd(2, 26, 694);
    FromAbove(0xFB9B7CD9A4A7443C, 720, 236);
  }

  lemma Row68()
    ensures Pow(10, 244) == 10000000000000000000000000000000000000000000000000000000000000000000000000000000000000000000000000000000000000000000000000000000000000000000000000000000000000000000000000000000000000000000000000000000000000000000000000000000000000000000000000000
    ensures Pow(2, 747) == 0x8000000000000000000000000000000000000000000000000000000000000000000000000000000000000000000000000000000000000000000000000000000000000000000000000000000000000000000000000000000000000000000
    ensures Accurate(Cached(0xBB764C4CA7A44410, 747, 244))
  {
    hide Pow, Accurate;
    TableFactors();
    Row67();
    PowAdd(10, 8, 236);
    PowAdd(2, 27, 720);
    FromAbove(0xBB764C4CA7A44410, 747, 244);
  }

  lemma Row69()
    ensures Pow(10, 252) == 1000000000000000000000000000000000000000000000000000000000000000000000000000000000000000000000000000000000000000000000000000000000000000000000000000000000000000000000000000000000000000000000000000000000000000000000000000000000000000000000000000000000000
    ensures Pow(2, 774) == 0x40000000000000000000000000000000000000000000000000000000000000000000000000000000000000000000000000000000000000000000000000000000000000000000000000000000000000000000000000000000000000000000000000
    ensures Accurate(Cached(0x8BAB8EEFB6409C1A, 774, 252))
  {
    hide Pow, Accurate;
    TableFactors();
    Row68();
    PowAdd(10, 8, 244);
    PowAdd(2, 27, 747);
    FromAbove(0x8BAB8EEFB6409C1A, 774, 252);
  }

  lemma Row70()
    ensures Pow(10, 260) == 100000000000000000000000000000000000000000000000000000000000000000000000000000000000000000000000000000000000000000000000000000000000000000000000000000000000000000000000000000000000000000000000000000000000000000000000000000000000000000000000000000000000000000000
    ensures Pow(2, 800) == 0x100000000000000000000000000000000000000000000000000000000000000000000000000000000000000000000000000000000000000000000000000000000000000000000000000000000000000000000000000000000000000000000000000000000
    ensures Accurate(Cached(0xD01FEF10A657842C, 800, 260))
  {
    hide Pow, Accurate;
    TableFactors();
    Row69();
    PowAdd(10, 8, 252);
    PowAdd(2, 26, 774);
    FromAbove(0xD01FEF10A657842C, 800, 260);
  }

  lemma Row71()
    ensures Pow(10, 268) == 10000000000000000000000000000000000000000000000000000000000000000000000000000000000000000000000000000000000000000000000000000000000000000000000000000000000000000000000000000000000000000000000000000000000000000000000000000000000000000000000000000000000000000000000000000
    ensures Pow(2, 827) == 0x800000000000000000000000000000000000000000000000000000000000000000000000000000000000000000000000000000000000000000000000000000000000000000000000000000000000000000000000000000000000000000000000000000000000000
    ensures Accurate(Cached(0x9B10A4E5E9913129, 827, 268))
  {
    hide Pow, Accurate;
    TableFactors();
    Row70();
    PowAdd(10, 8, 260);
    PowAdd(2, 27, 800);
    FromAbove(0x9B10A4E5E9913129, 827, 268);
  }

  lemma Row72()
    ensures Pow(10, 276) == 1000000000000000000000000000000000000000000000000000000000000000000000000000000000000000000000000000000000000000000000000000000000000000000000000000000000000000000000000000000000000000000000000000000000000000000000000000000000000000000000000000000000000000000000000000000000000
    ensures Pow(2, 853) == 0x2000000000000000000000000000000000000000000000000000000000000000000000000000000000000000000000000000000000000000000000000000000000000000000000000000000000000000000000000000000000000000000000000000000000000000000000
    ensures Accurate(Cached(0xE7109BFBA19C0C9D, 853, 276))
  {
    hide Pow, Accurate;
    TableFactors();
    Row71();
    PowAdd(10, 8, 268);
    PowAdd(2, 26, 827);
    FromAbove(0xE7109BFBA19C0C9D, 853, 276);
  }

  lemma Row73()
    ensures Pow(10, 284) == 100000000000000000000000000000000000000000000000000000000000000000000000000000000000000000000000000000000000000000000000000000000000000000000000000000000000000000000000000000000000000000000000000000000000000000000000000000000000000000000000000000000000000000000000000000000000000000000
    ensures Pow(2, 880) == 0x10000000000000000000000000000000000000000000000000000000000000000000000000000000000000000000000000000000000000000000000000000000000000000000000000000000000000000000000000000000000000000000000000000000000000000000000000000
    ensures Accurate(Cached(0xAC2820D9623BF429, 880, 284))
  {
    hide Pow, Accurate;
    TableFactors();
    Row72();
    PowAdd(10, 8, 276);
    PowAdd(2, 27, 853);
    FromAbove(0xAC2820D9623BF429, 880, 284);
  }

  lemma Row74()
    ensures Pow(10, 292) == 10000000000000000000000000000000000000000000000000000000000000000000000000000000000000000000000000000000000000000000000000000000000000000000000000000000000000000000000000000000000000000000000000000000000000000000000000000000000000000000000000000000000000000000000000000000000000000000000000000
    ensures Pow(2, 907) == 0x80000000000000000000000000000000000000000000000000000000000000000000000000000000000000000000000000000000000000000000000000000000000000000000000000000000000000000000000000000000000000000000000000000000000000000000000000000000000
    ensures Accurate(Cached(0x80444B5E7AA7CF85, 907, 292))
  {
    hide Pow, Accurate;
    TableFactors();
    Row73();
    PowAdd(10, 8, 284);
    PowAdd(2, 27, 880);
    FromAbove(0x80444B5E7AA7CF85, 907, 292);
  }

  lemma Row75()
    ensures Pow(10, 300) == 1000000000000000000000000000000000000000000000000000000000000000000000000000000000000000000000000000000000000000000000000000000000000000000000000000000000000000000000000000000000000000000000000000000000000000000000000000000000000000000000000000000000000000000000000000000000000000000000000000000000000
    ensures Pow(2, 933) == 0x200000000000000000000000000000000000000000000000000000000000000000000000000000000000000000000000000000000000000000000000000000000000000000000000000000000000000000000000000000000000000000000000000000000000000000000000000000000000000000
    ensures Accurate(Cached(0xBF21E44003ACDD2D, 933, 300))
  {
    hide Pow, Accurate;
    TableFactors();
    Row74();
    PowAdd(10, 8, 292);
    PowAdd(2, 26, 907);
    FromAbove(0xBF21E44003ACDD2D, 933, 300);
  }

  lemma Row76()
    ensures Pow(10, 308) == 100000000000000000000000000000000000000000000000000000000000000000000000000000000000000000000000000000000000000000000000000000000000000000000000000000000000000000000000000000000000000000000000000000000000000000000000000000000000000000000000000000000000000000000000000000000000000000000000000000000000000000000
    ensures Pow(2, 960) == 0x1000000000000000000000000000000000000000000000000000000000000000000000000000000000000000000000000000000000000000000000000000000000000000000000000000000000000000000000000000000000000000000000000000000000000000000000000000000000000000000000000
    ensures Accurate(Cached(0x8E679C2F5E44FF8F, 960, 308))
  {
    hide Pow, Accurate;
    TableFactors();
    Row75();
    PowAdd(10, 8, 300);
    PowAdd(2, 27, 933);
    FromAbove(0x8E679C2F5E44FF8F, 960, 308);
  }

  lemma Row77()
    ensures Pow(10, 316) == 10000000000000000000000000000000000000000000000000000000000000000000000000000000000000000000000000000000000000000000000000000000000000000000000000000000000000000000000000000000000000000000000000000000000000000000000000000000000000000000000000000000000000000000000000000000000000000000000000000000000000000000000000000
    ensures Pow(2, 986) == 0x4000000000000000000000000000000000000000000000000000000000000000000000000000000000000000000000000000000000000000000000000000000000000000000000000000000000000000000000000000000000000000000000000000000000000000000000000000000000000000000000000000000
    ensures Accurate(Cached(0xD433179D9C8CB841, 986, 316))
  {
    hide Pow, Accurate;
    TableFactors();
    Row76();
    PowAdd(10, 8, 308);
    PowAdd(2, 26, 960);
    FromAbove(0xD433179D9C8CB841, 986, 316);
  }

  lemma Row78()
    ensures Pow(10, 324) == 1000000000000000000000000000000000000000000000000000000000000000000000000000000000000000000000000000000000000000000000000000000000000000000000000000000000000000000000000000000000000000000000000000000000000000000000000000000000000000000000000000000000000000000000000000000000000000000000000000000000000000000000000000000000000
    ensures Pow(2, 1013) == 0x20000000000000000000000000000000000000000000000000000000000000000000000000000000000000000000000000000000000000000000000000000000000000000000000000000000000000000000000000000000000000000000000000000000000000000000000000000000000000000000000000000000000000
    ensures Accurate(Cached(0x9E19DB92B4E31BA9, 1013, 324))
  {
    hide Pow, Accurate;
    TableFactors();
    Row77();
    PowAdd(10, 8, 316);
    PowAdd(2, 27, 986);
    FromAbove(0x9E19DB92B4E31BA9, 1013, 324);
  }

  /** Every row is accurate. */
  lemma TableIsAccurate(index: nat)
    requires index < 79
    ensures Accurate(Row(index))
  {
    match index
    case 0 => Row0();
    case 1 => Row1();
    case 2 => Row2();
    case 3 => Row3();
    case 4 => Row4();
    case 5 => Row5();
    case 6 => Row6();
    case 7 => Row7();
    case 8 => Row8();
    case 9 => Row9();
    case 10 => Row10();
    case 11 => Row11();
    case 12 => Row12();
    case 13 => Row13();
    case 14 => Row14();
    case 15 => Row15();
    case 16 => Row16();
    case 17 => Row17();
    case 18 => Row18();
    case 19 => Row19();
    case 20 => Row20();
    case 21 => Row21();
    case 22 => Row22();
    case 23 => Row23();
    case 24 => Row24();
    case 25 => Row25();
    case 26 => Row26();
    case 27 => Row27();
    case 28 => Row28();
    case 29 => Row29();
    case 30 => Row30();
    case 31 => Row31();
    case 32 => Row32();
    case 33 => Row33();
    case 34 => Row34();
    case 35 => Row35();
    case 36 => Row36();
    case 37 => Row37();
    case 38 => Row38();
    case 39 => Row39();
    case 40 => Row40();
    case 41 => Row41();
    case 42 => Row42();
    case 43 => Row43();
    case 44 => Row44();
    case 45 => Row45();
    case 46 => Row46();
    case 47 => Row47();
    case 48 => Row48();
    case 49 => Row49();
    case 50 => Row50();
    case 51 => Row51();
    case 52 => Row52();
    case 53 => Row53();
    case 54 => Row54();
    case 55 => Row55();
    case 56 => Row56();
    case 57 => Row57();
    case 58 => Row58();
    case 59 => Row59();
    case 60 => Row60();
    case 61 => Row61();
    case 62 => Row62();
    case 63 => Row63();
    case 64 => Row64();
    case 65 => Row65();
    case 66 => Row66();
    case 67 => Row67();
    case 68 => Row68();
    case 69 => Row69();
    case 70 => Row70();
    case 71 => Row71();
    case 72 => Row72();
    case 73 => Row73();
    case 74 => Row74();
    case 75 => Row75();
    case 76 => Row76();
    case 77 => Row77();
    case _ => Row78();
  }
}
