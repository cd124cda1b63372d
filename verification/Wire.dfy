/** Little-endian words and the printing and parsing of lists of items. */
module Wire {
  type byte = x: int | 0 <= x < 256

  const U16 := 0x1_0000
  const U32 := 0x1_0000_0000
  const U64 := 0x1_0000_0000_0000_0000
  const I64 := 0x8000_0000_0000_0000

  datatype LoadError = TooSmall | BadMagic | BadVersion | BadEndianness | BadChecksum | Truncated | NegativeLevel

  datatype Parsed<+T> = Parsed(value: T, rest: seq<byte>) | Malformed(error: LoadError)

  /** The k low bytes of v, least significant first. */
  function Le(v: nat, k: nat): (s: seq<byte>)
    ensures |s| == k
  {
    if k == 0 then [] else [v % 256] + Le(v / 256, k - 1)
  }

  function FromLe(s: seq<byte>): nat {
    if s == [] then 0 else s[0] + 256 * FromLe(s[1..])
  }

  /** 256 to the power of k. */
  function Range(k: nat): nat {
    if k == 0 then 1 else 256 * Range(k - 1)
  }

  lemma {:induction false} LeRoundTrip(v: nat, k: nat)
    requires v < Range(k)
    ensures FromLe(Le(v, k)) == v
  {
    if k > 0 {
      LeRoundTrip(v / 256, k - 1);
      assert Le(v, k)[1..] == Le(v / 256, k - 1);
    }
  }

  lemma {:induction false} Ranges()
    ensures Range(2) == U16 && Range(4) == U32 && Range(8) == U64
  {
    assert Range(4) == 256 * (256 * Range(2));
    assert Range(8) == 256 * (256 * (256 * (256 * Range(4))));
  }

  /** Conversion of a signed integer to a word of the given range, and back. */
  function Unsigned(i: int, range: nat): nat
    requires range > 0
  {
    i % range
  }

  function Signed(u: nat, range: nat): int {
    if u < range / 2 then u else u - range
  }

  ghost predicate Fits(i: int, range: nat) {
    -(range / 2) <= i < range / 2
  }

  lemma {:induction false} SignedRoundTrip(i: int, range: nat)
    requires (range == U32 || range == U64) && Fits(i, range)
    ensures Unsigned(i, range) < range && Signed(Unsigned(i, range), range) == i
  {
  }

  // ---------------------------------------------------------------- single words

  function ParseWord(s: seq<byte>, k: nat): Parsed<nat> {
    if |s| < k then Malformed(Truncated) else Parsed(FromLe(s[..k]), s[k..])
  }

  lemma {:induction false} WordRoundTrip(v: nat, k: nat, tail: seq<byte>)
    requires v < Range(k)
    ensures ParseWord(Le(v, k) + tail, k) == Parsed(v, tail)
  {
    LeRoundTrip(v, k);
    assert (Le(v, k) + tail)[..k] == Le(v, k) && (Le(v, k) + tail)[k..] == tail;
  }

  // ---------------------------------------------------------------- lists of items

  function PrintMany<T(!new)>(xs: seq<T>, print1: T -> seq<byte>): seq<byte> {
    if xs == [] then [] else print1(xs[0]) + PrintMany(xs[1..], print1)
  }

  lemma {:induction false} PrintManyGrows<T(!new)>(xs: seq<T>, print1: T -> seq<byte>, i: nat)
    requires i < |xs|
    ensures PrintMany(xs[..i + 1], print1) == PrintMany(xs[..i], print1) + print1(xs[i])
  {
    if i > 0 {
      PrintManyGrows(xs[1..], print1, i - 1);
      assert xs[..i + 1][1..] == xs[1..][..i] && xs[..i][1..] == xs[1..][..i - 1];
    } else {
      assert xs[..1][1..] == [];
    }
  }

  function ParseMany<T>(s: seq<byte>, n: nat, parse1: seq<byte> -> Parsed<T>): (r: Parsed<seq<T>>)
    ensures r.Parsed? ==> |r.value| == n
    decreases n
  {
    if n == 0 then Parsed([], s)
    else match parse1(s)
      case Malformed(e) => Malformed(e)
      case Parsed(x, rest) =>
        match ParseMany(rest, n - 1, parse1)
        case Malformed(e) => Malformed(e)
        case Parsed(xs, rest') => Parsed([x] + xs, rest')
  }

  lemma {:induction false} ManySplit<T(!new)>(s: seq<byte>, n: nat, parse1: seq<byte> -> Parsed<T>)
    requires n > 0 && ParseMany(s, n, parse1).Parsed?
    ensures var p := ParseMany(s, n, parse1);
            && parse1(s).Parsed? && p.value[0] == parse1(s).value
            && ParseMany(parse1(s).rest, n - 1, parse1) == Parsed(p.value[1..], p.rest)
  {
    var xs := ParseMany(parse1(s).rest, n - 1, parse1).value;
    assert ([parse1(s).value] + xs)[1..] == xs;
  }

  lemma {:induction false} ManyJoin<T(!new)>(s: seq<byte>, n: nat, parse1: seq<byte> -> Parsed<T>)
    requires n > 0 && parse1(s).Parsed? && ParseMany(parse1(s).rest, n - 1, parse1).Parsed?
    ensures var q := ParseMany(parse1(s).rest, n - 1, parse1);
            ParseMany(s, n, parse1) == Parsed([parse1(s).value] + q.value, q.rest)
  {
  }

  /** The parser undoes the printer on x, whatever follows. */
  ghost predicate Inverts<T(!new)>(parse1: seq<byte> -> Parsed<T>, print1: T -> seq<byte>, x: T) {
    forall tail: seq<byte> :: parse1(print1(x) + tail) == Parsed(x, tail)
  }

  lemma {:induction false} ManyRoundTrip<T(!new)>(xs: seq<T>, print1: T -> seq<byte>, parse1: seq<byte> -> Parsed<T>,
                                                  tail: seq<byte>)
    requires forall x :: x in xs ==> Inverts(parse1, print1, x)
    ensures ParseMany(PrintMany(xs, print1) + tail, |xs|, parse1) == Parsed(xs, tail)
  {
    if xs != [] {
      var more := PrintMany(xs[1..], print1) + tail;
      assert PrintMany(xs, print1) + tail == print1(xs[0]) + more;
      assert Inverts(parse1, print1, xs[0]);
      assert parse1(print1(xs[0]) + more) == Parsed(xs[0], more);
      ManyRoundTrip(xs[1..], print1, parse1, tail);
      assert [xs[0]] + xs[1..] == xs;
    }
  }

  /** A result with items already read put in front. */
  function Prepend<T>(xs: seq<T>, p: Parsed<seq<T>>): Parsed<seq<T>> {
    match p
    case Malformed(e) => Malformed(e)
    case Parsed(ys, rest) => Parsed(xs + ys, rest)
  }

  /** Reading n items continues from the items in xs with what is left of the input. */
  ghost predicate Continues<T(!new)>(s: seq<byte>, n: nat, parse1: seq<byte> -> Parsed<T>, xs: seq<T>,
                                     rest: seq<byte>) {
    |xs| <= n && ParseMany(s, n, parse1) == Prepend(xs, ParseMany(rest, n - |xs|, parse1))
  }

  lemma {:induction false} ContinuesStart<T(!new)>(s: seq<byte>, n: nat, parse1: seq<byte> -> Parsed<T>)
    ensures Continues(s, n, parse1, [], s)
  {
    var p := ParseMany(s, n, parse1);
    assert p.Parsed? ==> [] + p.value == p.value;
  }

  lemma {:induction false} ContinuesStep<T(!new)>(s: seq<byte>, n: nat, parse1: seq<byte> -> Parsed<T>, xs: seq<T>,
                                                  rest: seq<byte>)
    requires Continues(s, n, parse1, xs, rest) && |xs| < n
    ensures parse1(rest).Malformed? ==> ParseMany(s, n, parse1) == Malformed(parse1(rest).error)
    ensures parse1(rest).Parsed? ==> Continues(s, n, parse1, xs + [parse1(rest).value], parse1(rest).rest)
  {
    if parse1(rest).Parsed? {
      var x := parse1(rest).value;
      var p := ParseMany(parse1(rest).rest, n - |xs| - 1, parse1);
      if p.Parsed? {
        assert xs + ([x] + p.value) == xs + [x] + p.value;
      }
    }
  }

  lemma {:induction false} ContinuesEnd<T(!new)>(s: seq<byte>, n: nat, parse1: seq<byte> -> Parsed<T>, xs: seq<T>,
                                                 rest: seq<byte>)
    requires Continues(s, n, parse1, xs, rest) && |xs| == n
    ensures ParseMany(s, n, parse1) == Parsed(xs, rest)
  {
    assert xs + [] == xs;
  }

  // ---------------------------------------------------------------- 32-bit words

  function ParseU32(s: seq<byte>): Parsed<nat> {
    ParseWord(s, 4)
  }

  function PrintU32(v: nat): seq<byte> {
    Le(v, 4)
  }

  lemma {:induction false} U32Inverts(v: nat)
    requires v < U32
    ensures Inverts(ParseU32, PrintU32, v)
  {
    forall tail: seq<byte> ensures ParseU32(PrintU32(v) + tail) == Parsed(v, tail) {
      Ranges();
      WordRoundTrip(v, 4, tail);
    }
  }

  function ParseI32(s: seq<byte>): Parsed<int> {
    match ParseWord(s, 4)
    case Malformed(e) => Malformed(e)
    case Parsed(v, rest) => Parsed(Signed(v, U32), rest)
  }

  function PrintI32(i: int): seq<byte> {
    Le(Unsigned(i, U32), 4)
  }

  lemma {:induction false} I32Inverts(i: int)
    requires Fits(i, U32)
    ensures Inverts(ParseI32, PrintI32, i)
  {
    forall tail: seq<byte> ensures ParseI32(PrintI32(i) + tail) == Parsed(i, tail) {
      Ranges();
      SignedRoundTrip(i, U32);
      WordRoundTrip(Unsigned(i, U32), 4, tail);
    }
  }

  /** n items of four bytes take 4n bytes. */
  lemma {:induction false} FourBytesEach(s: seq<byte>, n: nat)
    requires ParseMany(s, n, ParseI32).Parsed?
    ensures 4 * n <= |s| && ParseMany(s, n, ParseI32).rest == s[4 * n..]
  {
    if n > 0 {
      FourBytesEach(s[4..], n - 1);
      assert s[4..][4 * (n - 1)..] == s[4 * n..];
    }
  }
}
