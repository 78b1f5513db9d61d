/**
 * The parts of Go's standard library the core uses on strings: `strings.HasPrefix`,
 * `strings.TrimPrefix`, `strconv.Atoi`, the `uint(int)` conversion and `filepath.Base`
 * (with the Unix separator). Go strings are byte strings; the model uses `seq<char>`.
 */
module GoStrings {
  import opened Wrappers

  const MinInt64: int := -0x8000_0000_0000_0000
  const MaxInt64: int := 0x7FFF_FFFF_FFFF_FFFF
  const TwoTo64: int := 0x1_0000_0000_0000_0000

  predicate HasPrefix(s: string, prefix: string)
  {
    |prefix| <= |s| && s[..|prefix|] == prefix
  }

  function TrimPrefix(s: string, prefix: string): (r: string)
    ensures HasPrefix(s, prefix) ==> prefix + r == s
    ensures !HasPrefix(s, prefix) ==> r == s
  {
    if HasPrefix(s, prefix) then s[|prefix|..] else s
  }

  /** Prefixing and trimming the same prefix are inverse. */
  lemma {:induction false} TrimPrefixOfConcat(prefix: string, s: string)
    ensures HasPrefix(prefix + s, prefix)
    ensures TrimPrefix(prefix + s, prefix) == s
  {
    assert (prefix + s)[..|prefix|] == prefix;
    assert (prefix + s)[|prefix|..] == s;
  }

  predicate IsDigit(c: char) { '0' <= c <= '9' }

  predicate AllDigits(s: string) { forall i :: 0 <= i < |s| ==> IsDigit(s[i]) }

  /** The value of a string of decimal digits, most significant first. */
  function DecimalValue(s: string): (v: nat)
    requires AllDigits(s)
  {
    if s == [] then 0
    else DecimalValue(s[..|s| - 1]) * 10 + (s[|s| - 1] as int - '0' as int)
  }

  /**
   * `strconv.Atoi` on a 64-bit platform: an optional sign followed by at least one
   * decimal digit, in the range of `int`; anything else is a syntax or range error.
   */
  function Atoi(s: string): (r: Option<int>)
    ensures r.Some? ==> MinInt64 <= r.value <= MaxInt64
    ensures r.Some? ==> |s| > 0
  {
    if |s| == 0 then None
    else
      var signed := s[0] == '+' || s[0] == '-';
      var digits := if signed then s[1..] else s;
      if |digits| == 0 || !AllDigits(digits) then None
      else
        var v: int := if s[0] == '-' then 0 - DecimalValue(digits) as int else DecimalValue(digits);
        if MinInt64 <= v <= MaxInt64 then Some(v) else None
  }

  /** The decimal rendering of a natural number, as an id appears in a URL path. */
  function Decimal(n: nat): (s: string)
    ensures |s| > 0 && AllDigits(s)
    ensures s[0] != '+' && s[0] != '-'
  {
    if n < 10 then ['0' + n as char]
    else Decimal(n / 10) + ['0' + (n % 10) as char]
  }

  lemma {:induction false} DecimalValueOfDecimal(n: nat)
    ensures DecimalValue(Decimal(n)) == n
  {
    if n >= 10 {
      var s := Decimal(n);
      assert s[..|s| - 1] == Decimal(n / 10);
      DecimalValueOfDecimal(n / 10);
    }
  }

  /** `strconv.Atoi` reads back every id the range of `int` can hold. */
  lemma AtoiOfDecimal(n: nat)
    requires n <= MaxInt64
    ensures Atoi(Decimal(n)) == Some(n)
  {
    DecimalValueOfDecimal(n);
  }

  /** Go's `uint(i)` on a 64-bit platform: two's-complement reinterpretation. */
  function ToUint(i: int): (u: nat)
    ensures u < TwoTo64
    ensures 0 <= i < TwoTo64 ==> u == i
    ensures -TwoTo64 <= i < 0 ==> u == i + TwoTo64
  {
    i % TwoTo64
  }

  /** `path` with every trailing '/' removed. */
  function StripTrailingSlashes(path: string): (r: string)
    ensures |r| <= |path| && r == path[..|r|]
    ensures r == [] || r[|r| - 1] != '/'
    ensures forall i :: |r| <= i < |path| ==> path[i] == '/'
  {
    if |path| > 0 && path[|path| - 1] == '/' then StripTrailingSlashes(path[..|path| - 1])
    else path
  }

  /** The suffix of `path` after its last '/' (all of it when it has none). */
  function AfterLastSlash(path: string): (r: string)
    ensures '/' !in r
    ensures |r| <= |path| && r == path[|path| - |r|..]
    ensures |r| < |path| ==> path[|path| - |r| - 1] == '/'
  {
    if |path| == 0 then []
    else if path[|path| - 1] == '/' then []
    else AfterLastSlash(path[..|path| - 1]) + [path[|path| - 1]]
  }

  /** `filepath.Base`: the last element of a slash-separated path. */
  function FilepathBase(path: string): (b: string)
    ensures path == [] ==> b == "."
    ensures path != [] ==> |b| <= |path|
    ensures path != [] && (forall i :: 0 <= i < |path| ==> path[i] == '/') ==> b == "/"
  {
    if path == [] then "."
    else
      var stripped := StripTrailingSlashes(path);
      var last := AfterLastSlash(stripped);
      if last == [] then "/" else last
  }

  /** The base of a path is never empty, and holds no separator unless it is the root. */
  lemma FilepathBaseShape(path: string)
    ensures FilepathBase(path) != []
    ensures FilepathBase(path) == "/" || '/' !in FilepathBase(path)
  {
  }

  lemma {:induction false} AfterLastSlashNoSlash(s: string)
    requires '/' !in s
    ensures AfterLastSlash(s) == s
  {
    if |s| > 0 {
      var t := s[..|s| - 1];
      assert '/' !in t by {
        forall i | 0 <= i < |t| ensures t[i] != '/' { assert t[i] == s[i]; }
      }
      AfterLastSlashNoSlash(t);
    }
  }

  /** A non-empty name without '/' is its own base. */
  lemma BaseOfPlainName(name: string)
    requires name != [] && '/' !in name
    ensures FilepathBase(name) == name
  {
    assert name[|name| - 1] != '/';
    assert StripTrailingSlashes(name) == name;
    AfterLastSlashNoSlash(name);
  }

  /** Taking the base twice is taking it once. */
  lemma FilepathBaseIdempotent(path: string)
    ensures FilepathBase(FilepathBase(path)) == FilepathBase(path)
  {
    var b := FilepathBase(path);
    FilepathBaseShape(path);
    if b != "/" {
      assert b != [] && b[|b| - 1] != '/';
      assert StripTrailingSlashes(b) == b;
      AfterLastSlashNoSlash(b);
    } else {
      assert StripTrailingSlashes(b) == [];
    }
  }
}
