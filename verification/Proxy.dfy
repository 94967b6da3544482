/** Round-robin proxy choice by a wrapping 32-bit ticket (proxy/proxy.go). */
module Proxy {
  import opened Spider

  const WRAP := 0x1_0000_0000

  type Uint32 = x: int | 0 <= x < WRAP

  /** What a call returns: the empty-list error, a proxy, or the division by a length that truncates to
      zero as uint32. */
  datatype Choice<T> = Empty | Chosen(proxy: T) | DivideByZero

  /** atomic.AddUint32(&index, 1) - 1 in uint32 arithmetic, after the addition. */
  function Ticket(added: Uint32): Uint32 {
    (added - 1) % WRAP
  }

  lemma {:induction false} TicketIsOldIndex(index: Uint32)
    ensures Ticket((index + 1) % WRAP) == index
  {
  }

  /** The list length as uint32. */
  function Divisor(length: nat): (n: nat)
    ensures n <= length && n < WRAP
  {
    length % WRAP
  }

  class RoundRobinSwitcher<T> {
    const proxyURLs: seq<T>
    var index: Uint32

    constructor (urls: seq<T>)
      ensures proxyURLs == urls && index == 0
    {
      proxyURLs, index := urls, 0;
    }

    /** One call. The only shared write is the atomic addition, so concurrent calls behave like some
        order of these. */
    method GetProxy() returns (choice: Choice<T>)
      modifies this`index
      ensures |proxyURLs| == 0 ==> choice == Empty && index == old(index)
      ensures |proxyURLs| > 0 ==> index == (old(index) + 1) % 0x1_0000_0000
      ensures 0 < |proxyURLs| < 0x1_0000_0000 ==> choice == Chosen(proxyURLs[old(index) % |proxyURLs|])
      ensures |proxyURLs| >= 0x1_0000_0000 ==>
                var divisor := |proxyURLs| % 0x1_0000_0000;
                choice == if divisor == 0 then DivideByZero else Chosen(proxyURLs[old(index) % divisor])
    {
      if |proxyURLs| == 0 {
        return Empty;
      }
      TicketIsOldIndex(index);
      index := (index + 1) % WRAP;
      var ticket, divisor := Ticket(index), Divisor(|proxyURLs|);
      if divisor == 0 {
        return DivideByZero;
      }
      choice := Chosen(proxyURLs[ticket % divisor]);
    }
  }

  /** RoundRobinProxySwitcher: the first unparsable URL is an error; otherwise one entry per URL. */
  method NewSwitcher<U, T(0)>(urls: seq<U>, parse: U -> Option<T>) returns (r: Option<RoundRobinSwitcher<T>>)
    ensures r.Some? <==> |urls| > 0 && forall i :: 0 <= i < |urls| ==> parse(urls[i]).Some?
    ensures r.Some? ==> fresh(r.value) && r.value.index == 0 && |r.value.proxyURLs| == |urls|
                        && forall i :: 0 <= i < |urls| ==> parse(urls[i]) == Some(r.value.proxyURLs[i])
  {
    if |urls| < 1 {
      return None;
    }
    var parsed := new T[|urls|];
    for i := 0 to |urls|
      invariant forall k :: 0 <= k < i ==> parse(urls[k]) == Some(parsed[k])
    {
      var u := parse(urls[i]);
      if u.None? {
        return None;
      }
      parsed[i] := u.value;
    }
    var s := new RoundRobinSwitcher(parsed[..]);
    r := Some(s);
  }

  // ---------------------------------------------------------------- fairness

  /** The slot the t-th call gets, counting calls from zero on a fresh switcher over n proxies. */
  function Slot(n: nat, t: nat): nat
    requires n > 0
  {
    t % WRAP % n
  }

  /** The slots that consecutive calls of GetProxy get from this value of the index on. */
  function Served(index: Uint32, n: nat, calls: nat): (slots: seq<nat>)
    requires n > 0
    ensures |slots| == calls && forall k :: 0 <= k < calls ==> slots[k] < n
    decreases calls
  {
    if calls == 0 then [] else [index % n] + Served((index + 1) % WRAP, n, calls - 1)
  }

  /** However often the index has wrapped, call `from + k` gets its slot. */
  lemma {:induction false} ServedSlots(n: nat, from: nat, calls: nat)
    requires n > 0
    ensures |Served(from % WRAP, n, calls)| == calls
    ensures forall k :: 0 <= k < calls ==> Served(from % WRAP, n, calls)[k] == Slot(n, from + k)
    decreases calls
  {
    if calls == 0 {
    } else {
      assert (from % WRAP + 1) % WRAP == (from + 1) % WRAP;
      ServedSlots(n, from + 1, calls - 1);
      var rest := Served((from + 1) % WRAP, n, calls - 1);
      assert Served(from % WRAP, n, calls) == [from % WRAP % n] + rest;
      forall k | 0 <= k < calls
        ensures ([from % WRAP % n] + rest)[k] == Slot(n, from + k)
      {
        if k > 0 {
          assert rest[k - 1] == Slot(n, from + 1 + (k - 1));
        }
      }
    }
  }

  /** Consecutive calls of GetProxy on one switcher get proxy after proxy, in step with the wrapping ticket.
      On a fresh switcher of distinct proxies an earlier one leads a later one by at most one call per
      completed wrap plus one; and calls, as many as there are proxies, that do not cross a wrap get each
      proxy once. */
  method GetProxies<T>(s: RoundRobinSwitcher<T>, calls: nat) returns (choices: seq<Choice<T>>)
    modifies s`index
    ensures |choices| == calls
    ensures |s.proxyURLs| == 0 ==> forall c | c in choices :: c == Empty
    ensures |s.proxyURLs| > 0 ==> s.index == (old(s.index) + calls) % 0x1_0000_0000
    ensures 0 < |s.proxyURLs| < 0x1_0000_0000 ==>
              forall k | 0 <= k < calls ::
                choices[k] == Chosen(s.proxyURLs[(old(s.index) + k) % 0x1_0000_0000 % |s.proxyURLs|])
    ensures |s.proxyURLs| >= 0x1_0000_0000 ==>
              var n := |s.proxyURLs| % 0x1_0000_0000;
              forall k | 0 <= k < calls ::
                choices[k] == if n == 0 then DivideByZero
                              else Chosen(s.proxyURLs[(old(s.index) + k) % 0x1_0000_0000 % n])
    ensures 0 < |s.proxyURLs| < 0x1_0000_0000 && old(s.index) == 0 && Distinct(s.proxyURLs) ==>
              forall i, j | 0 <= i < j < |s.proxyURLs| ::
                0 <= multiset(choices)[Chosen(s.proxyURLs[i])] - multiset(choices)[Chosen(s.proxyURLs[j])]
                  <= calls / 0x1_0000_0000 + 1
    ensures calls == |s.proxyURLs| && old(s.index) + calls <= 0x1_0000_0000 && Distinct(s.proxyURLs)
              && |s.proxyURLs| < 0x1_0000_0000 ==>
              forall i | 0 <= i < calls :: multiset(choices)[Chosen(s.proxyURLs[i])] == 1
  {
    ghost var start, urls := s.index, s.proxyURLs;
    choices := CallAll(s, calls);
    if |urls| > 0 {
      ChoicesSpelledOut(urls, choices, start);
      if |urls| < WRAP && Distinct(urls) {
        ChoicesAreFair(urls, choices, start);
      }
    }
  }

  lemma {:induction false} ChoicesSpelledOut<T>(urls: seq<T>, choices: seq<Choice<T>>, start: Uint32)
    requires |urls| > 0
    requires var n := Divisor(|urls|);
             forall k | 0 <= k < |choices| ::
               choices[k] == if n == 0 then DivideByZero else Chosen(urls[Slot(n, start + k)])
    ensures var n := |urls| % 0x1_0000_0000;
            && (|urls| < 0x1_0000_0000 ==> n == |urls|)
            && forall k | 0 <= k < |choices| ::
                 choices[k] == if n == 0 then DivideByZero else Chosen(urls[(start + k) % 0x1_0000_0000 % n])
    ensures |urls| < 0x1_0000_0000 ==>
              forall k | 0 <= k < |choices| :: choices[k] == Chosen(urls[Slot(|urls|, start + k)])
  {
    SmallDivisor(|urls|);
  }

  /** The calls themselves, told by slots. */
  method CallAll<T>(s: RoundRobinSwitcher<T>, calls: nat) returns (choices: seq<Choice<T>>)
    modifies s`index
    ensures |choices| == calls
    ensures |s.proxyURLs| == 0 ==> forall c | c in choices :: c == Empty
    ensures |s.proxyURLs| > 0 ==> s.index == (old(s.index) + calls) % WRAP
    ensures |s.proxyURLs| > 0 ==>
              var n := Divisor(|s.proxyURLs|);
              forall k | 0 <= k < calls ::
                choices[k] == if n == 0 then DivideByZero else Chosen(s.proxyURLs[Slot(n, old(s.index) + k)])
  {
    choices := [];
    ghost var start, urls, n := s.index, s.proxyURLs, Divisor(|s.proxyURLs|);
    SmallDivisor(|urls|);
    for i := 0 to calls
      invariant |choices| == i
      invariant |urls| == 0 ==> forall c | c in choices :: c == Empty
      invariant |urls| > 0 ==> s.index == (start + i) % WRAP
      invariant |urls| > 0 ==>
                  forall k | 0 <= k < i ::
                    choices[k] == if n == 0 then DivideByZero else Chosen(urls[Slot(n, start + k)])
    {
      var choice := s.GetProxy();
      choices := choices + [choice];
      NextTicket(start + i);
    }
  }

  lemma {:induction false} SmallDivisor(length: nat)
    ensures length < WRAP ==> Divisor(length) == length
    ensures length >= WRAP ==> Divisor(length) == length % 0x1_0000_0000
  {
  }

  ghost predicate Distinct<T>(urls: seq<T>) {
    forall i, j | 0 <= i < j < |urls| :: urls[i] != urls[j]
  }

  lemma {:induction false} ChoicesAreFair<T>(urls: seq<T>, choices: seq<Choice<T>>, start: Uint32)
    requires |urls| > 0 && Distinct(urls)
    requires forall k | 0 <= k < |choices| :: choices[k] == Chosen(urls[Slot(|urls|, start + k)])
    ensures start == 0 ==>
              forall i, j | 0 <= i < j < |urls| ::
                0 <= multiset(choices)[Chosen(urls[i])] - multiset(choices)[Chosen(urls[j])] <= |choices| / WRAP + 1
    ensures |choices| == |urls| && start + |choices| <= WRAP ==>
              forall i | 0 <= i < |urls| :: multiset(choices)[Chosen(urls[i])] == 1
  {
    if start == 0 {
      forall i: nat, j: nat | i < j < |urls|
        ensures 0 <= multiset(choices)[Chosen(urls[i])] - multiset(choices)[Chosen(urls[j])] <= |choices| / WRAP + 1
      {
        ChoiceCounts(urls, choices, 0, i);
        ChoiceCounts(urls, choices, 0, j);
        FairAcrossWraps(|urls|, i, j, |choices|);
      }
    }
    if |choices| == |urls| && start + |choices| <= WRAP {
      forall i: nat | i < |urls|
        ensures multiset(choices)[Chosen(urls[i])] == 1
      {
        ChoiceCounts(urls, choices, start, i);
        RotationInsideWrap(|urls|, start);
      }
    }
  }

  /** With distinct proxies, the calls that got proxy i are those that were given slot i. */
  lemma {:induction false} ChoiceCounts<T>(urls: seq<T>, choices: seq<Choice<T>>, start: nat, i: nat)
    requires i < |urls| && Distinct(urls)
    requires forall k | 0 <= k < |choices| :: choices[k] == Chosen(urls[Slot(|urls|, start + k)])
    ensures multiset(choices)[Chosen(urls[i])] == Given(|urls|, i, start, |choices|)
  {
    if |choices| == 0 {
    } else {
      var k := |choices| - 1;
      ChoiceCounts(urls, choices[..k], start, i);
      assert choices == choices[..k] + [choices[k]];
      assert choices[k] == Chosen(urls[Slot(|urls|, start + k)]);
    }
  }

  lemma {:induction false} NextTicket(t: nat)
    ensures (t % WRAP + 1) % WRAP == (t + 1) % WRAP
  {
  }

  /** How many of the `calls` calls that follow the first `from` got slot i. */
  function Given(n: nat, i: nat, from: nat, calls: nat): nat
    requires n > 0
  {
    if calls == 0 then 0 else Given(n, i, from, calls - 1) + if Slot(n, from + calls - 1) == i then 1 else 0
  }

  function CountOf(slots: seq<nat>, i: nat): nat {
    if |slots| == 0 then 0
    else CountOf(slots[..|slots| - 1], i) + if slots[|slots| - 1] == i then 1 else 0
  }

  lemma {:induction false} CountSlots(slots: seq<nat>, n: nat, i: nat, from: nat)
    requires n > 0 && forall k :: 0 <= k < |slots| ==> slots[k] == Slot(n, from + k)
    ensures CountOf(slots, i) == Given(n, i, from, |slots|)
  {
    if |slots| == 0 {
    } else {
      var k := |slots| - 1;
      CountSlots(slots[..k], n, i, from);
      assert slots[k] == Slot(n, from + k);
    }
  }

  /** Given counts how often slot i was served. */
  lemma {:induction false} GivenCounts(n: nat, i: nat, from: nat, calls: nat)
    requires n > 0
    ensures CountOf(Served(from % WRAP, n, calls), i) == Given(n, i, from, calls)
  {
    ServedSlots(n, from, calls);
    CountSlots(Served(from % WRAP, n, calls), n, i, from);
  }

  lemma {:induction false} GivenConcat(n: nat, i: nat, from: nat, a: nat, b: nat)
    requires n > 0
    ensures Given(n, i, from, a + b) == Given(n, i, from, a) + Given(n, i, from + a, b)
  {
    if b == 0 {
    } else {
      GivenConcat(n, i, from, a, b - 1);
    }
  }

  /** The ticket x calls after a wrap is x. */
  lemma {:induction false} TicketInWrap(q: nat, x: nat)
    requires x < WRAP
    ensures (q * WRAP + x) % WRAP == x
  {
  }

  lemma {:induction false} Quotient(x: int, n: nat, q: int, r: nat)
    requires n > 0 && r < n && x == q * n + r
    ensures x % n == r && x / n == q
  {
    var q', r' := x / n, x % n;
    assert x == q' * n + r';
    assert (q - q') * n == r' - r;
    Grows(q - q', n);
  }

  lemma {:induction false} Grows(d: int, n: nat)
    ensures d >= 1 ==> d * n >= n
    ensures d <= -1 ==> d * n + n <= 0
  {
    assert d * n + n == (d + 1) * n && d * n - n == (d - 1) * n;
  }

  /** Division by n of the next number. */
  lemma {:induction false} NextNumber(y: nat, n: nat)
    requires n > 0
    ensures if y % n == n - 1 then (y + 1) % n == 0 && (y + 1) / n == y / n + 1
            else (y + 1) % n == y % n + 1 && (y + 1) / n == y / n
  {
    var d, r := y / n, y % n;
    assert y == d * n + r;
    if r == n - 1 {
      assert y + 1 == (d + 1) * n + 0;
      Quotient(y + 1, n, d + 1, 0);
    } else {
      Quotient(y + 1, n, d, r + 1);
    }
  }

  /** Division by n of the number n further on. */
  lemma {:induction false} NextRound(x: nat, n: nat)
    requires n > 0
    ensures (x + n) % n == x % n && (x + n) / n == x / n + 1
  {
    assert x + n == (x / n + 1) * n + x % n;
    Quotient(x + n, n, x / n + 1, x % n);
  }

  /** x calls into a wrap, slot i was given once per full round and once more if the open round is
      past it. */
  lemma {:induction false} GivenInWrap(n: nat, i: nat, q: nat, x: nat)
    requires 0 < n && i < n && x <= WRAP
    ensures Given(n, i, q * WRAP, x) == x / n + if x % n > i then 1 else 0
    decreases x
  {
    if x == 0 {
      Quotient(0, n, 0, 0);
    } else {
      GivenInWrap(n, i, q, x - 1);
      TicketInWrap(q, x - 1);
      NextNumber(x - 1, n);
    }
  }

  /** Over whole wraps an earlier slot leads a later one by at most one call per wrap. */
  lemma {:induction false} WholeWraps(n: nat, i: nat, j: nat, q: nat)
    requires 0 < n && i < j < n
    ensures 0 <= Given(n, i, 0, q * WRAP) - Given(n, j, 0, q * WRAP) <= q
  {
    if q == 0 {
    } else {
      WholeWraps(n, i, j, q - 1);
      var start := (q - 1) * WRAP;
      GivenConcat(n, i, 0, start, WRAP);
      GivenConcat(n, j, 0, start, WRAP);
      GivenInWrap(n, i, q - 1, WRAP);
      GivenInWrap(n, j, q - 1, WRAP);
    }
  }

  /** After any number of calls an earlier proxy leads a later one by no less than nothing and by no more
      than one call per completed wrap plus one. */
  lemma {:induction false} FairAcrossWraps(n: nat, i: nat, j: nat, calls: nat)
    requires 0 < n && i < j < n
    ensures 0 <= Given(n, i, 0, calls) - Given(n, j, 0, calls) <= calls / WRAP + 1
  {
    var q, x := calls / WRAP, calls % WRAP;
    WholeWraps(n, i, j, q);
    GivenConcat(n, i, 0, q * WRAP, x);
    GivenConcat(n, j, 0, q * WRAP, x);
    GivenInWrap(n, i, q, x);
    GivenInWrap(n, j, q, x);
  }

  /** The n calls after the first `from` use every slot exactly once. */
  ghost predicate EachOnce(n: nat, from: nat)
    requires n > 0
  {
    forall i: nat | i < n :: Given(n, i, from, n) == 1
  }

  /** n consecutive calls that do not cross a wrap use every slot exactly once. */
  lemma {:induction false} RotationInsideWrap(n: nat, from: nat)
    requires 0 < n && from % WRAP + n <= WRAP
    ensures EachOnce(n, from)
  {
    var q, x := from / WRAP, from % WRAP;
    forall i: nat | i < n
      ensures Given(n, i, from, n) == 1
    {
      GivenInWrap(n, i, q, x);
      GivenInWrap(n, i, q, x + n);
      GivenConcat(n, i, q * WRAP, x, n);
      NextRound(x, n);
    }
  }

  /** When n divides 2^32 the wrap does not disturb the rotation. */
  lemma {:induction false} SlotIgnoresWrap(n: nat, t: nat)
    requires 0 < n && WRAP % n == 0
    ensures Slot(n, t) == t % n
  {
    var q, x := t / WRAP, t % WRAP;
    var m, d := WRAP / n, x / n;
    assert WRAP == m * n;
    assert q * WRAP == q * m * n;
    assert t == (q * m + d) * n + x % n;
    Quotient(t, n, q * m + d, x % n);
  }

  lemma {:induction false} GivenByRemainder(n: nat, i: nat, from: nat, calls: nat)
    requires 0 < n && i < n && calls <= n && WRAP % n == 0
    ensures Given(n, i, from, calls) == if (i - from) % n < calls then 1 else 0
  {
    if calls == 0 {
    } else {
      GivenByRemainder(n, i, from, calls - 1);
      SlotIgnoresWrap(n, from + calls - 1);
      SameRemainder(n, i, from, calls - 1);
    }
  }

  /** Call from + k gets slot i exactly for k = (i - from) mod n. */
  lemma {:induction false} SameRemainder(n: nat, i: nat, from: nat, k: nat)
    requires 0 < n && i < n && k < n
    ensures (from + k) % n == i <==> (i - from) % n == k
  {
    AddRemainder(from, n, k);
    SubRemainder(from, n, i);
  }

  lemma {:induction false} AddRemainder(x: nat, n: nat, k: nat)
    requires k < n
    ensures (x + k) % n == if x % n + k < n then x % n + k else x % n + k - n
  {
    var f, r := x / n, x % n;
    assert x == f * n + r;
    if r + k < n {
      Quotient(x + k, n, f, r + k);
    } else {
      assert (f + 1) * n == f * n + n;
      Quotient(x + k, n, f + 1, r + k - n);
    }
  }

  lemma {:induction false} SubRemainder(x: nat, n: nat, i: nat)
    requires i < n
    ensures (i - x) % n == if i >= x % n then i - x % n else i - x % n + n
  {
    var f, r := x / n, x % n;
    assert x == f * n + r;
    assert (-f) * n == -(f * n) && (-f - 1) * n == -(f * n) - n;
    if i >= r {
      Quotient(i - x, n, -f, i - r);
    } else {
      Quotient(i - x, n, -f - 1, i - r + n);
    }
  }

  /** The rotation promise, every window of n calls using every proxy once, holds across wraps exactly
      when the number of proxies divides 2^32. */
  lemma {:induction false} RotationIffDivides(n: nat)
    requires 0 < n < WRAP
    ensures (forall from: nat :: EachOnce(n, from)) <==> WRAP % n == 0
  {
    if WRAP % n == 0 {
      forall from: nat
        ensures EachOnce(n, from)
      {
        forall i: nat | i < n
          ensures Given(n, i, from, n) == 1
        {
          GivenByRemainder(n, i, from, n);
        }
      }
    } else {
      BrokenWindow(n);
    }
  }

  /** Otherwise the window that starts at the last full round before the wrap uses slot 0 twice. */
  lemma {:induction false} BrokenWindow(n: nat)
    requires 0 < n < WRAP && WRAP % n != 0
    ensures !EachOnce(n, WRAP - WRAP % n)
  {
    var r := WRAP % n;
    var from := WRAP - r;
    LastRound(n);
    GivenConcat(n, 0, from, r, n - r);
    FirstCall(n, 0, from, r);
    FirstCall(n, 0, WRAP, n - r);
    assert Given(n, 0, from, n) >= 2;
  }

  /** The last full round before the wrap starts on slot 0, and so does the wrap. */
  lemma {:induction false} LastRound(n: nat)
    requires 0 < n < WRAP && WRAP % n != 0
    ensures Slot(n, WRAP - WRAP % n) == 0 && Slot(n, WRAP) == 0
  {
    var from := WRAP - WRAP % n;
    assert from == WRAP / n * n + 0;
    Quotient(from, n, WRAP / n, 0);
    assert from % WRAP == from;
  }

  lemma {:induction false} FirstCall(n: nat, i: nat, from: nat, calls: nat)
    requires 0 < n && calls > 0 && Slot(n, from) == i
    ensures Given(n, i, from, calls) >= 1
  {
    GivenConcat(n, i, from, 1, calls - 1);
    assert Given(n, i, from, 1) == Given(n, i, from, 0) + 1;
  }
}
