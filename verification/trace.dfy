/** Pin writes and delays, recorded as an abstract trace of events. */
module Trace {
  import opened Types

  /** Settle delay after every pin write, in microseconds. */
  const SettleUs: nat := 5

  /** One observable action on the physical boundary:
      a write to the chip-select, clock or up/down line, or a busy-wait. */
  datatype Event =
    | CS(high: bool)
    | Clk(high: bool)
    | UD(high: bool)
    | Delay(us: nat)

  /** Number of occurrences of `e` in `t`. */
  function Count(t: seq<Event>, e: Event): nat
  {
    if |t| == 0 then 0 else Count(t[..|t| - 1], e) + (if t[|t| - 1] == e then 1 else 0)
  }

  /** A one-event trace. */
  lemma CountSingle(x: Event, e: Event)
    ensures Count([x], e) == if x == e then 1 else 0
  {
    assert [x][..0] == [];
  }

  lemma {:induction false} CountConcat(a: seq<Event>, b: seq<Event>, e: Event)
    ensures Count(a + b, e) == Count(a, e) + Count(b, e)
  {
    if |b| > 0 {
      CountConcat(a, b[..|b| - 1], e);
      assert (a + b)[..|a + b| - 1] == a + b[..|b| - 1];
    } else {
      assert a + b == a;
    }
  }

  /** The trace of `for (i = 0; i < n; i++) body(i)`. */
  function Repeat(n: nat, body: nat -> seq<Event>): seq<Event>
    decreases n
  {
    if n == 0 then [] else Repeat(n - 1, body) + body(n - 1)
  }

  /** Every iteration writes `w` events. */
  ghost predicate Uniform(n: nat, body: nat -> seq<Event>, w: nat)
  {
    forall i :: 0 <= i < n ==> |body(i)| == w
  }

  lemma {:induction false} RepeatLength(n: nat, body: nat -> seq<Event>, w: nat)
    requires Uniform(n, body, w)
    ensures |Repeat(n, body)| == n * w
  {
    if n > 0 {
      RepeatLength(n - 1, body, w);
      MulSucc(n - 1, w);
    }
  }

  /** Iteration `i` of a uniform loop occupies positions `[i*w, i*w + w)`. */
  lemma {:induction false} RepeatBlock(n: nat, body: nat -> seq<Event>, w: nat, i: nat)
    requires Uniform(n, body, w)
    requires i < n
    ensures |Repeat(n, body)| == n * w
    ensures Repeat(n, body)[i * w .. i * w + w] == body(i)
  {
    var a, b := Repeat(n - 1, body), body(n - 1);
    RepeatLength(n - 1, body, w);
    MulSucc(n - 1, w);
    assert |a| == (n - 1) * w;
    assert Repeat(n, body) == a + b;
    if i < n - 1 {
      RepeatBlock(n - 1, body, w, i);
      MulSucc(i, w);
      MulMono(i + 1, n - 1, w);
      assert (a + b)[i * w .. i * w + w] == a[i * w .. i * w + w];
    } else {
      assert (a + b)[|a| .. |a| + w] == b;
    }
  }

  lemma MulSucc(a: nat, w: nat)
    ensures (a + 1) * w == a * w + w
  {
  }

  lemma MulMono(a: nat, b: nat, w: nat)
    requires a <= b
    ensures a * w <= b * w
  {
  }

  /** An event occurring `c` times per iteration occurs `n * c` times in the loop. */
  lemma {:induction false} RepeatCount(n: nat, body: nat -> seq<Event>, e: Event, c: nat)
    requires forall i :: 0 <= i < n ==> Count(body(i), e) == c
    ensures Count(Repeat(n, body), e) == n * c
  {
    if n > 0 {
      RepeatCount(n - 1, body, e, c);
      MulSucc(n - 1, c);
      CountConcat(Repeat(n - 1, body), body(n - 1), e);
    }
  }

  /** An event occurring only in iteration `j` (once) occurs once in the loop if `j < n`, never otherwise. */
  lemma {:induction false} RepeatCountSingle(n: nat, body: nat -> seq<Event>, e: Event, j: int)
    requires forall i :: 0 <= i < n ==> Count(body(i), e) == (if i == j then 1 else 0)
    ensures Count(Repeat(n, body), e) == (if 0 <= j < n then 1 else 0)
  {
    if n > 0 {
      RepeatCountSingle(n - 1, body, e, j);
      CountConcat(Repeat(n - 1, body), body(n - 1), e);
    }
  }

  /** Every event of the loop comes from some iteration. */
  lemma {:induction false} RepeatOnly(n: nat, body: nat -> seq<Event>, p: Event -> bool)
    requires forall i, k :: 0 <= i < n && 0 <= k < |body(i)| ==> p(body(i)[k])
    ensures forall k :: 0 <= k < |Repeat(n, body)| ==> p(Repeat(n, body)[k])
  {
    if n > 0 {
      RepeatOnly(n - 1, body, p);
      var a, b := Repeat(n - 1, body), body(n - 1);
      assert Repeat(n, body) == a + b;
      forall k | 0 <= k < |a + b|
        ensures p((a + b)[k])
      {
        if k >= |a| {
          assert (a + b)[k] == b[k - |a|];
        }
      }
    }
  }
}
