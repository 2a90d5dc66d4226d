/**
 * The candidate space walked by the brute-force task: every string of length
 * 1 up to `maxLength` over `charset`, by ascending length, and within one
 * length in `itertools.product` order (the first position varies slowest,
 * each position runs through `charset` by index).
 */
module Enumeration {

  import opened Arith

  /** `b` raised to the power `e`. */
  function Pow(b: nat, e: nat): nat
  {
    if e == 0 then 1 else b * Pow(b, e - 1)
  }

  /** Size of the search space: the sum of `n^l` for `l` from 1 to `maxLength`. */
  function Total(n: nat, maxLength: int): nat
    decreases maxLength
  {
    if maxLength <= 0 then 0 else Total(n, maxLength - 1) + Pow(n, maxLength)
  }

  /** Every character of `w` occurs in `cs`. */
  predicate OverCharset(cs: string, w: string)
  {
    forall i :: 0 <= i < |w| ==> w[i] in cs
  }

  /** Each tail, in order, with `c` put in front of it. */
  function Attach(c: char, tails: seq<string>): seq<string>
  {
    seq(|tails|, i requires 0 <= i < |tails| => [c] + tails[i])
  }

  /** For each character of `cs` in order, that character in front of every tail. */
  function Prepend(cs: string, tails: seq<string>): seq<string>
  {
    if cs == [] then [] else Attach(cs[0], tails) + Prepend(cs[1..], tails)
  }

  /** `itertools.product(cs, repeat=l)`, each tuple joined into a string. */
  function Product(cs: string, l: nat): seq<string>
  {
    if l == 0 then [""] else Prepend(cs, Product(cs, l - 1))
  }

  /** The whole search space for lengths 1 to `maxLength`, in the order it is tested. */
  function Candidates(cs: string, maxLength: int): seq<string>
    decreases maxLength
  {
    if maxLength <= 0 then [] else Candidates(cs, maxLength - 1) + Product(cs, maxLength)
  }

  /** Position of the first occurrence of `c` in `cs`. */
  function IndexOf(cs: string, c: char): (r: nat)
    requires c in cs
    ensures r < |cs| && cs[r] == c
    ensures forall j :: 0 <= j < r ==> cs[j] != c
  {
    if cs[0] == c then 0 else 1 + IndexOf(cs[1..], c)
  }

  /** The base-|cs| number whose digits are the positions of `w`'s characters in `cs`. */
  function Rank(cs: string, w: string): nat
    requires OverCharset(cs, w)
  {
    if w == [] then 0
    else IndexOf(cs, w[0]) * Pow(|cs|, |w| - 1) + Rank(cs, w[1..])
  }

  /** Zero-based index at which a non-empty word over `cs` is reached in `Candidates`. */
  function Position(cs: string, w: string): nat
    requires OverCharset(cs, w) && |w| >= 1
  {
    Total(|cs|, |w| - 1) + Rank(cs, w)
  }

  /** `u` comes before `v` when their characters are compared by position in `cs`. */
  predicate LexBefore(cs: string, u: string, v: string)
    requires OverCharset(cs, u) && OverCharset(cs, v)
  {
    |u| > 0 && |v| > 0 &&
    (IndexOf(cs, u[0]) < IndexOf(cs, v[0]) ||
     (u[0] == v[0] && LexBefore(cs, u[1..], v[1..])))
  }

  // ---------------------------------------------------------------------------
  // Arithmetic of the count

  lemma {:induction false} PowPositive(b: nat, e: nat)
    requires b > 0
    ensures Pow(b, e) > 0
  {
    if e > 0 {
      PowPositive(b, e - 1);
    }
  }

  /** The search space is empty exactly when the charset is empty or no length is asked for. */
  lemma {:induction false} TotalZeroIff(n: nat, maxLength: int)
    ensures Total(n, maxLength) == 0 <==> (n == 0 || maxLength <= 0)
  {
    if maxLength > 0 {
      TotalZeroIff(n, maxLength - 1);
      if n > 0 {
        PowPositive(n, maxLength);
      } else {
        assert Pow(n, maxLength) == 0 * Pow(n, maxLength - 1) == 0;
      }
    }
  }

  lemma {:induction false} TotalMonotone(n: nat, a: int, b: int)
    requires a <= b
    ensures Total(n, a) <= Total(n, b)
    decreases b - a
  {
    if a < b {
      TotalMonotone(n, a, b - 1);
    }
  }

  // ---------------------------------------------------------------------------
  // Shape of Prepend and Product

  lemma {:induction false} PrependLength(cs: string, tails: seq<string>)
    ensures |Prepend(cs, tails)| == |cs| * |tails|
  {
    if cs != [] {
      PrependLength(cs[1..], tails);
    }
  }

  /** Entry `i * |tails| + r` of `Prepend` is `cs[i]` in front of `tails[r]`. */
  lemma {:induction false} PrependAt(cs: string, tails: seq<string>, i: nat, r: nat)
    requires i < |cs| && r < |tails|
    ensures i * |tails| + r < |Prepend(cs, tails)|
    ensures Prepend(cs, tails)[i * |tails| + r] == [cs[i]] + tails[r]
  {
    PrependLength(cs, tails);
    MulBelow(i, r, |cs|, |tails|);
    if i > 0 {
      PrependAt(cs[1..], tails, i - 1, r);
      MulStep(i, |tails|);
    }
  }

  /** Entry `k` of `Prepend` is some `cs[i]` in front of some `tails[r]`, with `k == i * |tails| + r`. */
  lemma {:induction false} PrependSplit(cs: string, tails: seq<string>, k: nat) returns (i: nat, r: nat)
    requires k < |Prepend(cs, tails)|
    ensures i < |cs| && r < |tails| && k == i * |tails| + r
    ensures Prepend(cs, tails)[k] == [cs[i]] + tails[r]
  {
    assert cs != [];
    if k < |tails| {
      i, r := 0, k;
    } else {
      var i', r' := PrependSplit(cs[1..], tails, k - |tails|);
      i, r := i' + 1, r';
      MulStep(i, |tails|);
    }
  }

  lemma {:induction false} ProductLength(cs: string, l: nat)
    ensures |Product(cs, l)| == Pow(|cs|, l)
  {
    if l > 0 {
      ProductLength(cs, l - 1);
      PrependLength(cs, Product(cs, l - 1));
    }
  }

  /** Every entry of `Product(cs, l)` is a word of length `l` over `cs`. */
  lemma {:induction false} ProductWords(cs: string, l: nat, k: nat)
    requires k < |Product(cs, l)|
    ensures |Product(cs, l)[k]| == l && OverCharset(cs, Product(cs, l)[k])
  {
    if l > 0 {
      var tails := Product(cs, l - 1);
      var i, r := PrependSplit(cs, tails, k);
      ProductWords(cs, l - 1, r);
    }
  }

  /** Completeness with its place: word `w` over `cs` is entry `Rank(cs, w)` of `Product(cs, |w|)`. */
  lemma {:induction false} ProductAtRank(cs: string, w: string)
    requires OverCharset(cs, w)
    ensures Rank(cs, w) < |Product(cs, |w|)|
    ensures Product(cs, |w|)[Rank(cs, w)] == w
  {
    if w != [] {
      var tail := w[1..];
      assert OverCharset(cs, tail);
      ProductAtRank(cs, tail);
      var tails := Product(cs, |tail|);
      ProductLength(cs, |tail|);
      var i := IndexOf(cs, w[0]);
      PrependAt(cs, tails, i, Rank(cs, tail));
      assert [cs[i]] + tails[Rank(cs, tail)] == [w[0]] + tail == w;
    }
  }

  lemma RankBound(cs: string, w: string)
    requires OverCharset(cs, w)
    ensures Rank(cs, w) < Pow(|cs|, |w|)
  {
    ProductAtRank(cs, w);
    ProductLength(cs, |w|);
  }

  /** The rank of the word at entry `k` is at most `k`: `Rank` finds its first occurrence. */
  lemma {:induction false} RankAtMost(cs: string, l: nat, k: nat)
    requires k < |Product(cs, l)|
    ensures OverCharset(cs, Product(cs, l)[k])
    ensures Rank(cs, Product(cs, l)[k]) <= k
  {
    ProductWords(cs, l, k);
    if l > 0 {
      var tails := Product(cs, l - 1);
      var w := Product(cs, l)[k];
      var i, r := PrependSplit(cs, tails, k);
      assert w[1..] == tails[r];
      RankAtMost(cs, l - 1, r);
      ProductLength(cs, l - 1);
      RankCons(cs, w);
      MulMonotone(IndexOf(cs, w[0]), i, |tails|);
    }
  }

  lemma RankCons(cs: string, w: string)
    requires OverCharset(cs, w) && w != []
    ensures OverCharset(cs, w[1..])
    ensures Rank(cs, w) == IndexOf(cs, w[0]) * Pow(|cs|, |w| - 1) + Rank(cs, w[1..])
  {
  }

  /** Words compared by charset position have their ranks in the same order. */
  lemma {:induction false} LexBeforeRank(cs: string, u: string, v: string)
    requires OverCharset(cs, u) && OverCharset(cs, v) && |u| == |v|
    requires LexBefore(cs, u, v)
    ensures Rank(cs, u) < Rank(cs, v)
  {
    var m := Pow(|cs|, |u| - 1);
    var a, b := IndexOf(cs, u[0]), IndexOf(cs, v[0]);
    assert OverCharset(cs, u[1..]) && OverCharset(cs, v[1..]);
    assert Rank(cs, u) == a * m + Rank(cs, u[1..]);
    assert Rank(cs, v) == b * m + Rank(cs, v[1..]);
    if a < b {
      RankBound(cs, u[1..]);
      MulMonotone(a + 1, b, m);
      MulStep(a + 1, m);
    } else {
      LexBeforeRank(cs, u[1..], v[1..]);
    }
  }

  // ---------------------------------------------------------------------------
  // The whole candidate sequence

  lemma {:induction false} CandidatesLength(cs: string, maxLength: int)
    ensures |Candidates(cs, maxLength)| == Total(|cs|, maxLength)
    decreases maxLength
  {
    if maxLength > 0 {
      CandidatesLength(cs, maxLength - 1);
      ProductLength(cs, maxLength);
    }
  }

  /** Candidates for a smaller maximum length are a prefix of those for a larger one. */
  lemma {:induction false} CandidatesPrefix(cs: string, a: int, b: int)
    requires a <= b
    ensures Candidates(cs, a) <= Candidates(cs, b)
    decreases b - a
  {
    if a < b {
      CandidatesPrefix(cs, a, b - 1);
      if b > 0 {
        assert Candidates(cs, b - 1) <= Candidates(cs, b);
      }
    }
  }

  /** Entry `j` of the length-`l` block sits at index `Total(|cs|, l - 1) + j` of the candidates. */
  lemma CandidateInBlock(cs: string, maxLength: int, l: nat, j: nat)
    requires 1 <= l <= maxLength && j < |Product(cs, l)|
    ensures Total(|cs|, l - 1) + j < |Candidates(cs, maxLength)|
    ensures Candidates(cs, maxLength)[Total(|cs|, l - 1) + j] == Product(cs, l)[j]
  {
    CandidatesPrefix(cs, l, maxLength);
    CandidatesLength(cs, l - 1);
    assert Candidates(cs, l) == Candidates(cs, l - 1) + Product(cs, l);
  }

  /** `all` has the size of the search space and, for each length, the block of that length's words. */
  ghost predicate Blocks(all: seq<string>, cs: string, maxLength: int)
  {
    && |all| == Total(|cs|, maxLength)
    && forall l {:trigger Product(cs, l)} :: 1 <= l <= maxLength ==>
         Total(|cs|, l - 1) <= Total(|cs|, l) <= |all| &&
         all[Total(|cs|, l - 1)..Total(|cs|, l)] == Product(cs, l)
  }

  /** The candidates are the blocks of lengths 1 to `maxLength`, one after the other. */
  lemma CandidatesBlocks(cs: string, maxLength: int)
    ensures Blocks(Candidates(cs, maxLength), cs, maxLength)
  {
    var c := Candidates(cs, maxLength);
    CandidatesLength(cs, maxLength);
    forall l | 1 <= l <= maxLength
      ensures Total(|cs|, l - 1) <= Total(|cs|, l) <= |c|
      ensures c[Total(|cs|, l - 1)..Total(|cs|, l)] == Product(cs, l)
    {
      CandidatesPrefix(cs, l, maxLength);
      CandidatesLength(cs, l - 1);
      CandidatesLength(cs, l);
      TotalMonotone(|cs|, l, maxLength);
      var d := Candidates(cs, l);
      assert d == Candidates(cs, l - 1) + Product(cs, l);
      assert c[Total(|cs|, l - 1)..Total(|cs|, l)] == d[Total(|cs|, l - 1)..];
    }
  }

  /** Every word of length 1 to `maxLength` over `cs` is tested, at index `Position(cs, w)`. */
  lemma CandidateAtPosition(cs: string, maxLength: int, w: string)
    requires OverCharset(cs, w) && 1 <= |w| <= maxLength
    ensures Position(cs, w) < |Candidates(cs, maxLength)|
    ensures Candidates(cs, maxLength)[Position(cs, w)] == w
  {
    ProductAtRank(cs, w);
    CandidatesLength(cs, |w| - 1);
    CandidatesPrefix(cs, |w|, maxLength);
    var c := Candidates(cs, |w|);
    assert c == Candidates(cs, |w| - 1) + Product(cs, |w|);
    assert c[Position(cs, w)] == w;
  }

  /**
   * What entry `k` of the candidates is: a word over `cs` whose length `l` places `k`
   * in the block of length-`l` words, and whose own position is not after `k`.
   */
  lemma {:induction false} CandidateShape(cs: string, maxLength: int, k: nat)
    requires k < |Candidates(cs, maxLength)|
    ensures var w := Candidates(cs, maxLength)[k];
      OverCharset(cs, w) && 1 <= |w| <= maxLength &&
      Total(|cs|, |w| - 1) <= k < Total(|cs|, |w|) &&
      Position(cs, w) <= k
    decreases maxLength
  {
    var prev := Candidates(cs, maxLength - 1);
    CandidatesLength(cs, maxLength - 1);
    if k < |prev| {
      CandidateShape(cs, maxLength - 1, k);
      TotalMonotone(|cs|, maxLength - 1, maxLength);
    } else {
      var r := k - |prev|;
      assert Candidates(cs, maxLength)[k] == Product(cs, maxLength)[r];
      ProductWords(cs, maxLength, r);
      RankAtMost(cs, maxLength, r);
      ProductLength(cs, maxLength);
    }
  }

  /** Shorter words come first; among words of one length, the order is lexicographic by charset position. */
  lemma PositionOrder(cs: string, u: string, v: string)
    requires OverCharset(cs, u) && OverCharset(cs, v) && 1 <= |u| && 1 <= |v|
    requires |u| < |v| || (|u| == |v| && LexBefore(cs, u, v))
    ensures Position(cs, u) < Position(cs, v)
  {
    if |u| < |v| {
      RankBound(cs, u);
      TotalMonotone(|cs|, |u|, |v| - 1);
    } else {
      LexBeforeRank(cs, u, v);
    }
  }

  /** Lengths never decrease along the candidate sequence. */
  lemma LengthsAscend(cs: string, maxLength: int, i: nat, j: nat)
    requires i <= j < |Candidates(cs, maxLength)|
    ensures |Candidates(cs, maxLength)[i]| <= |Candidates(cs, maxLength)[j]|
  {
    var c := Candidates(cs, maxLength);
    CandidateShape(cs, maxLength, i);
    CandidateShape(cs, maxLength, j);
    if |c[i]| > |c[j]| {
      TotalMonotone(|cs|, |c[j]|, |c[i]| - 1);
    }
  }
}
