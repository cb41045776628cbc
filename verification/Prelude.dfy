/** Data shared by every module: results, bytes, counting over sequences and
    the "arrives in order" relation between two sequences. */
module Prelude {

  datatype Option<+T> = None | Some(value: T)

  datatype Result<+T, +E> = Success(value: T) | Failure(error: E)

  type Byte = b: int | 0 <= b < 0x100

  type Word16 = w: int | 0 <= w < 0x1_0000

  /** An IPv4 address as its 32-bit big-endian value. */
  type Addr = a: int | 0 <= a < 0x1_0000_0000

  type Packet = seq<Byte>

  /** A SHA-256 token digest. */
  type Digest = d: seq<Byte> | |d| == 32 witness seq(32, _ => 0)

  /** A 16-bit value from its two bytes, and back: big-endian as on the wire. */
  function Word(hi: Byte, lo: Byte): Word16 { hi * 256 + lo }

  function Hi(w: Word16): Byte { w / 256 }

  function Lo(w: Word16): Byte { w % 256 }

  lemma WordBytes(hi: Byte, lo: Byte)
    ensures Hi(Word(hi, lo)) == hi && Lo(Word(hi, lo)) == lo
  {}

  function Max(a: int, b: int): int { if a < b then b else a }

  function Min(a: int, b: int): int { if a < b then a else b }

  /** How many elements of xs satisfy p. */
  ghost function Count<T>(xs: seq<T>, p: T -> bool): nat {
    if |xs| == 0 then 0
    else Count(xs[..|xs| - 1], p) + (if p(xs[|xs| - 1]) then 1 else 0)
  }

  lemma CountAppend<T>(xs: seq<T>, x: T, p: T -> bool)
    ensures Count(xs + [x], p) == Count(xs, p) + (if p(x) then 1 else 0)
  {
    assert (xs + [x])[..|xs|] == xs;
  }

  lemma {:induction false} CountSame<T>(xs: seq<T>, ys: seq<T>, p: T -> bool)
    requires |xs| == |ys|
    requires forall j :: 0 <= j < |xs| ==> p(xs[j]) == p(ys[j])
    ensures Count(xs, p) == Count(ys, p)
  {
    if |xs| > 0 {
      var n := |xs| - 1;
      assert forall j :: 0 <= j < n ==> xs[..n][j] == xs[j] && ys[..n][j] == ys[j];
      CountSame(xs[..n], ys[..n], p);
    }
  }

  /** When p changes at no position but i, the count moves by the change at i alone. */
  lemma {:induction false} CountChange<T>(xs: seq<T>, ys: seq<T>, i: nat, p: T -> bool)
    requires i < |xs| == |ys|
    requires forall j :: 0 <= j < |xs| && j != i ==> p(xs[j]) == p(ys[j])
    ensures Count(ys, p) == Count(xs, p) - (if p(xs[i]) then 1 else 0) + (if p(ys[i]) then 1 else 0)
  {
    var n := |xs| - 1;
    assert forall j :: 0 <= j < n ==> xs[..n][j] == xs[j] && ys[..n][j] == ys[j];
    if i == n {
      CountSame(xs[..n], ys[..n], p);
    } else {
      CountChange(xs[..n], ys[..n], i, p);
    }
  }

  /** A count is zero exactly when no element satisfies the predicate. */
  lemma {:induction false} CountZero<T>(xs: seq<T>, p: T -> bool)
    ensures Count(xs, p) == 0 <==> forall i :: 0 <= i < |xs| ==> !p(xs[i])
  {
    if |xs| > 0 {
      CountZero(xs[..|xs| - 1], p);
      assert forall i :: 0 <= i < |xs| - 1 ==> xs[..|xs| - 1][i] == xs[i];
    }
  }

  /** Two predicates that no element meets together count at most the length. */
  lemma {:induction false} CountDisjoint<T>(xs: seq<T>, p: T -> bool, q: T -> bool)
    requires forall i :: 0 <= i < |xs| ==> !(p(xs[i]) && q(xs[i]))
    ensures Count(xs, p) + Count(xs, q) <= |xs|
  {
    if |xs| > 0 {
      var init := xs[..|xs| - 1];
      assert forall i :: 0 <= i < |init| ==> init[i] == xs[i];
      CountDisjoint(init, p, q);
    }
  }

  /** The sum of f over xs. */
  ghost function Sum<T>(xs: seq<T>, f: T -> nat): nat {
    if |xs| == 0 then 0 else Sum(xs[..|xs| - 1], f) + f(xs[|xs| - 1])
  }

  lemma SumAppend<T>(xs: seq<T>, x: T, f: T -> nat)
    ensures Sum(xs + [x], f) == Sum(xs, f) + f(x)
  {
    assert (xs + [x])[..|xs|] == xs;
  }

  lemma {:induction false} SumSame<T>(xs: seq<T>, ys: seq<T>, f: T -> nat)
    requires |xs| == |ys|
    requires forall j :: 0 <= j < |xs| ==> f(xs[j]) == f(ys[j])
    ensures Sum(xs, f) == Sum(ys, f)
  {
    if |xs| > 0 {
      var n := |xs| - 1;
      assert forall j :: 0 <= j < n ==> xs[..n][j] == xs[j] && ys[..n][j] == ys[j];
      SumSame(xs[..n], ys[..n], f);
    }
  }

  lemma {:induction false} SumChange<T>(xs: seq<T>, ys: seq<T>, i: nat, f: T -> nat)
    requires i < |xs| == |ys|
    requires forall j :: 0 <= j < |xs| && j != i ==> f(xs[j]) == f(ys[j])
    ensures Sum(ys, f) == Sum(xs, f) - f(xs[i]) + f(ys[i])
  {
    var n := |xs| - 1;
    assert forall j :: 0 <= j < n ==> xs[..n][j] == xs[j] && ys[..n][j] == ys[j];
    if i == n {
      SumSame(xs[..n], ys[..n], f);
    } else {
      SumChange(xs[..n], ys[..n], i, f);
    }
  }

  /** A set every element of which is f of some element of xs is no larger than xs. */
  lemma {:induction false} ImageIsSmaller<T, U>(xs: set<T>, image: set<U>, f: T -> U)
    requires forall u :: u in image ==> exists x :: x in xs && f(x) == u
    ensures |image| <= |xs|
  {
    if x :| x in xs {
      var rest, less := xs - {x}, image - {f(x)};
      forall u | u in less
        ensures exists y :: y in rest && f(y) == u
      {
        var y :| y in xs && f(y) == u;
        assert y in rest;
      }
      ImageIsSmaller(rest, less, f);
    } else {
      assert image == {};
    }
  }

  ghost predicate Increasing(idx: seq<nat>) {
    forall i, j :: 0 <= i < j < |idx| ==> idx[i] < idx[j]
  }

  /** xs is obtained from ys by keeping the positions idx, in order. */
  ghost predicate Embeds<T>(xs: seq<T>, ys: seq<T>, idx: seq<nat>) {
    && |idx| == |xs|
    && Increasing(idx)
    && forall i :: 0 <= i < |xs| ==> idx[i] < |ys| && xs[i] == ys[idx[i]]
  }

  /** xs is an in-order subsequence of ys. */
  ghost predicate Subsequence<T>(xs: seq<T>, ys: seq<T>) {
    exists idx: seq<nat> :: Embeds(xs, ys, idx)
  }

  /** In-order arrival composes across hops. */
  lemma SubsequenceTransitive<T>(xs: seq<T>, ys: seq<T>, zs: seq<T>)
    requires Subsequence(xs, ys) && Subsequence(ys, zs)
    ensures Subsequence(xs, zs)
  {
    var a: seq<nat> :| Embeds(xs, ys, a);
    var b: seq<nat> :| Embeds(ys, zs, b);
    var c := seq(|a|, (i: nat) requires i < |a| => b[a[i]]);
    assert Embeds(xs, zs, c);
  }

  lemma PrefixIsSubsequence<T>(xs: seq<T>, ys: seq<T>)
    requires xs <= ys
    ensures Subsequence(xs, ys)
  {
    var idx: seq<nat> := seq(|xs|, (i: nat) => i);
    assert Embeds(xs, ys, idx);
  }

  /** A subsequence stays one when the longer side grows, and when both grow by the same element. */
  lemma SubsequenceGrows<T>(xs: seq<T>, ys: seq<T>, y: T)
    requires Subsequence(xs, ys)
    ensures Subsequence(xs, ys + [y])
    ensures Subsequence(xs + [y], ys + [y])
  {
    var idx: seq<nat> :| Embeds(xs, ys, idx);
    assert Embeds(xs, ys + [y], idx);
    assert Embeds(xs + [y], ys + [y], idx + [|ys|]);
  }

  /** What one writer contributed to a shared log, in order. */
  function WrittenBy<T>(log: seq<(nat, T)>, i: nat): seq<T> {
    if |log| == 0 then []
    else
      var n := |log| - 1;
      if log[n].0 == i then WrittenBy(log[..n], i) + [log[n].1] else WrittenBy(log[..n], i)
  }

  lemma WrittenByGrows<T>(log: seq<(nat, T)>, w: (nat, T), i: nat)
    ensures WrittenBy(log + [w], i) == if w.0 == i then WrittenBy(log, i) + [w.1] else WrittenBy(log, i)
  {
    assert (log + [w])[..|log|] == log;
  }

  /** Nobody beyond the last writer of a log contributed to it. */
  lemma {:induction false} NothingFromStrangers<T>(log: seq<(nat, T)>, n: nat)
    requires forall k :: 0 <= k < |log| ==> log[k].0 < n
    ensures WrittenBy(log, n) == []
  {
    if |log| > 0 {
      var init := log[..|log| - 1];
      assert forall k :: 0 <= k < |init| ==> init[k] == log[k];
      NothingFromStrangers(init, n);
    }
  }

  lemma {:induction false} CountSplit<T>(xs: seq<T>, p: T -> bool, q: T -> bool, r: T -> bool)
    requires forall x :: p(x) <==> q(x) || r(x)
    requires forall x :: !(q(x) && r(x))
    ensures Count(xs, p) == Count(xs, q) + Count(xs, r)
  {
    if |xs| > 0 {
      CountSplit(xs[..|xs| - 1], p, q, r);
    }
  }
}
