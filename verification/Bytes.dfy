/** Byte strings as the message code handles them. One `char` stands for one
    byte of a C++ `char` or `std::string`; nothing below depends on its range.
 */
module Bytes {

  // ---- Flattening a list of strings ----

  function Flatten<T>(ss: seq<seq<T>>): seq<T> {
    if ss == [] then [] else Flatten(ss[..|ss|-1]) + ss[|ss|-1]
  }

  lemma FlattenSnoc<T>(ss: seq<seq<T>>, s: seq<T>)
    ensures Flatten(ss + [s]) == Flatten(ss) + s
  {
    assert (ss + [s])[..|ss|] == ss;
  }

  lemma {:induction false} FlattenConcat<T>(ss: seq<seq<T>>, tt: seq<seq<T>>)
    ensures Flatten(ss + tt) == Flatten(ss) + Flatten(tt)
  {
    if tt == [] {
      assert ss + tt == ss;
    } else {
      var init, last := tt[..|tt|-1], tt[|tt|-1];
      assert ss + tt == (ss + init) + [last];
      FlattenSnoc(ss + init, last);
      FlattenConcat(ss, init);
    }
  }

  // ---- Subsequences ----

  /** `a` can be had from `b` by leaving out elements. */
  predicate Subsequence<T(==)>(a: seq<T>, b: seq<T>) {
    a == [] ||
    (b != [] && (Subsequence(a, b[..|b|-1]) || (a[|a|-1] == b[|b|-1] && Subsequence(a[..|a|-1], b[..|b|-1]))))
  }

  lemma SubsequenceSkip<T>(a: seq<T>, b: seq<T>, x: T)
    requires Subsequence(a, b)
    ensures Subsequence(a, b + [x])
  {
    assert (b + [x])[..|b|] == b;
  }

  lemma SubsequenceTake<T>(a: seq<T>, b: seq<T>, x: T)
    requires Subsequence(a, b)
    ensures Subsequence(a + [x], b + [x])
  {
    assert (a + [x])[..|a|] == a && (b + [x])[..|b|] == b;
  }

  lemma {:induction false} SubsequenceLength<T>(a: seq<T>, b: seq<T>)
    requires Subsequence(a, b)
    ensures |a| <= |b|
    ensures |a| == |b| ==> a == b
  {
    if a != [] {
      var c := b[..|b|-1];
      if Subsequence(a, c) {
        SubsequenceLength(a, c);
      } else {
        SubsequenceLength(a[..|a|-1], c);
      }
    }
  }

  // ---- Frames ----

  /** Width of one message on the stream: a 60-byte head and a 40-byte body. */
  const FRAME_BYTES: nat := 100

  /** The frames cut from the front as long as a whole one is left. */
  function Chunks(s: string): (r: seq<string>)
    ensures |r| == |s| / FRAME_BYTES
    ensures forall i :: 0 <= i < |r| ==> r[i] == s[100 * i..100 * i + 100]
    decreases |s|
  {
    if |s| < FRAME_BYTES then [] else
      var rest := Chunks(s[100..]);
      assert forall i :: 0 <= i < |rest| ==> rest[i] == s[100 * (i + 1)..100 * (i + 1) + 100];
      [s[..100]] + rest
  }

  predicate WholeFrames(fs: seq<string>) { forall i :: 0 <= i < |fs| ==> |fs[i]| == FRAME_BYTES }

  lemma {:induction false} WholeFramesLength(fs: seq<string>)
    requires WholeFrames(fs)
    ensures |Flatten(fs)| == FRAME_BYTES * |fs|
  {
    if fs != [] {
      WholeFramesLength(fs[..|fs|-1]);
    }
  }

  /** Cutting a concatenation of whole frames gives the frames back. */
  lemma {:induction false} ChunksOfFlatten(fs: seq<string>)
    requires WholeFrames(fs)
    ensures Chunks(Flatten(fs)) == fs
  {
    WholeFramesLength(fs);
    if fs != [] {
      var head, rest := fs[0], fs[1..];
      assert fs == [head] + rest;
      FlattenConcat([head], rest);
      assert Flatten([head]) == Flatten<char>([]) + head;
      assert Flatten(fs) == head + Flatten(rest);
      assert Flatten(fs)[100..] == Flatten(rest);
      ChunksOfFlatten(rest);
    }
  }

  // ---- Padding ----

  function Hashes(n: nat): (r: string)
    ensures |r| == n
    ensures forall i :: 0 <= i < n ==> r[i] == '#'
  {
    seq(n, _ => '#')
  }

  /** A field filled up with '#' to width `w`; a longer field is left as it is. */
  function Padded(s: string, w: nat): string {
    if |s| < w then s + Hashes(w - |s|) else s
  }

  /** Padding never cuts: a field is kept whole and followed by '#' up to the width. */
  lemma {:induction false} PaddedShape(s: string, w: nat)
    ensures |Padded(s, w)| == if |s| <= w then w else |s|
    ensures s <= Padded(s, w)
    ensures forall i :: |s| <= i < w ==> Padded(s, w)[i] == '#'
  {
    if |s| < w {
      assert forall i :: |s| <= i < w ==> Padded(s, w)[i] == Hashes(w - |s|)[i - |s|];
    }
  }

  /** What the reader collects before the first '#': the longest '#'-free prefix. */
  function UpToHash(s: string): (r: string)
    ensures r <= s
    ensures '#' !in r
    ensures |r| < |s| ==> s[|r|] == '#'
  {
    if s == [] || s[0] == '#' then [] else [s[0]] + UpToHash(s[1..])
  }

  lemma {:induction false} UpToHashIsTheOnly(s: string, r: string)
    requires r <= s
    requires '#' !in r
    requires |r| < |s| ==> s[|r|] == '#'
    ensures r == UpToHash(s)
  {
    if s != [] && s[0] != '#' {
      UpToHashIsTheOnly(s[1..], r[1..]);
    }
  }

  /** Padding to `w` and reading back `w` bytes loses exactly what follows a '#'
      or exceeds `w`. */
  lemma {:induction false} PadThenRead(s: string, w: nat)
    ensures |Padded(s, w)| >= w
    ensures UpToHash(Padded(s, w)[..w]) == UpToHash(if |s| <= w then s else s[..w])
    ensures UpToHash(Padded(s, w)[..w]) == s <==> |s| <= w && '#' !in s
  {
    var p := Padded(s, w)[..w];
    if |s| <= w {
      UpToHashIsTheOnly(p, UpToHash(s));
      if '#' !in s {
        UpToHashIsTheOnly(s, s);
      }
    } else {
      assert p == s[..w];
      assert |UpToHash(p)| <= w;
    }
  }

  // ---- Decimal numbers, as `<<` prints an unsigned integer ----

  predicate IsDigit(c: char) { '0' <= c <= '9' }

  predicate AllDigits(s: string) { forall i :: 0 <= i < |s| ==> IsDigit(s[i]) }

  function Decimal(n: nat): (r: string)
    ensures r != [] && AllDigits(r)
  {
    var d := ('0' as int + n % 10) as char;
    if n < 10 then [d] else Decimal(n / 10) + [d]
  }

  function Value(s: string): nat
    requires AllDigits(s)
  {
    if s == [] then 0 else 10 * Value(s[..|s|-1]) + (s[|s|-1] as int - '0' as int)
  }

  function Pow10(k: nat): nat { if k == 0 then 1 else 10 * Pow10(k - 1) }

  lemma {:induction false} ValueOfDecimal(n: nat)
    ensures Value(Decimal(n)) == n
  {
    if n >= 10 {
      ValueOfDecimal(n / 10);
      assert Decimal(n)[..|Decimal(n)|-1] == Decimal(n / 10);
    }
  }

  lemma {:induction false} DecimalLength(n: nat, k: nat)
    requires 0 < k
    ensures |Decimal(n)| <= k <==> n < Pow10(k)
  {
    if k == 1 {
      assert Pow10(1) == 10;
    } else if n >= 10 {
      DecimalLength(n / 10, k - 1);
      assert n / 10 < Pow10(k - 1) <==> n < 10 * Pow10(k - 1);
    } else {
      PowPositive(k - 1);
    }
  }

  lemma PowPositive(k: nat)
    ensures Pow10(k) >= 1
  {}

  lemma FiveDigits(n: nat)
    ensures |Decimal(n)| == 5 <==> 10000 <= n < 100000
  {
    DecimalLength(n, 4);
    DecimalLength(n, 5);
    assert Pow10(4) == 10 * 10 * 10 * Pow10(1);
    assert Pow10(5) == 10 * Pow10(4);
  }
}
