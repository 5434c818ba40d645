/** What an LRU list of bounded size holds, for every sequence of accesses: the theory behind the
    prepared-statement cache. A "recency stack" is the list of distinct texts, most recent first. */
module LruTheory {
  import opened Sequences

  /** Moves `x` to the front of the list, or puts it there. */
  function Touch(lru: seq<string>, x: string): seq<string> {
    [x] + WithoutAll(lru, {x})
  }

  /** One get-or-insert access at capacity `c`. */
  function Access(lru: seq<string>, c: nat, x: string): seq<string> {
    Take(Touch(lru, x), c)
  }

  function Run(accesses: seq<string>, c: nat): seq<string> {
    if accesses == [] then []
    else Access(Run(accesses[..|accesses| - 1], c), c, Last(accesses))
  }

  /** The recency stack of unbounded size. */
  function Recency(accesses: seq<string>): seq<string> {
    if accesses == [] then [] else Touch(Recency(accesses[..|accesses| - 1]), Last(accesses))
  }

  /** `x` was last used after `y` was. */
  ghost predicate UsedLater(accesses: seq<string>, x: string, y: string) {
    exists i :: 0 <= i < |accesses| && accesses[i] == x && y !in accesses[i..]
  }

  /** The recency stack has exactly the texts that were used, each once. */
  lemma {:induction false} RecencyElements(accesses: seq<string>)
    ensures NoDuplicates(Recency(accesses))
    ensures forall x :: x in Recency(accesses) <==> x in accesses
  {
    if accesses == [] {
    } else {
      var before := accesses[..|accesses| - 1];
      RecencyElements(before);
      WithoutAllNoDuplicates(Recency(before), {Last(accesses)});
      assert accesses == before + [Last(accesses)];
    }
  }

  lemma UsedLaterStep(before: seq<string>, x: string, y: string, next: string)
    requires UsedLater(before, x, y) && y != next
    ensures UsedLater(before + [next], x, y)
  {
    var i :| 0 <= i < |before| && before[i] == x && y !in before[i..];
    assert (before + [next])[i..] == before[i..] + [next];
  }

  /** The recency stack lists later uses first. */
  lemma {:induction false} RecencyOrder(accesses: seq<string>, i: nat, j: nat)
    requires i < j < |Recency(accesses)|
    ensures UsedLater(accesses, Recency(accesses)[i], Recency(accesses)[j])
  {
    var n := |accesses| - 1;
    var before, x := accesses[..n], accesses[n];
    var stack, now := Recency(before), Recency(accesses);
    RecencyElements(accesses);
    assert accesses == before + [x];
    assert now[0] == x;
    if i == 0 {
      assert accesses[n] == now[0] && now[j] !in accesses[n..];
    } else {
      WithoutAllKeepsOrder(stack, {x}, i - 1, j - 1);
      var p, q :| 0 <= p < q < |stack| && stack[p] == now[i] && stack[q] == now[j];
      RecencyOrder(before, p, q);
      UsedLaterStep(before, now[i], now[j], x);
    }
  }

  lemma {:induction false} WithoutAllKeepsOrder(s: seq<string>, gone: set<string>, i: nat, j: nat)
    requires i < j < |WithoutAll(s, gone)|
    ensures exists p, q :: 0 <= p < q < |s| && s[p] == WithoutAll(s, gone)[i] && s[q] == WithoutAll(s, gone)[j]
  {
    var t := s[1..];
    if s[0] in gone {
      WithoutAllKeepsOrder(t, gone, i, j);
      var p, q :| 0 <= p < q < |t| && t[p] == WithoutAll(s, gone)[i] && t[q] == WithoutAll(s, gone)[j];
      assert s[p + 1] == t[p] && s[q + 1] == t[q];
    } else if i > 0 {
      WithoutAllKeepsOrder(t, gone, i - 1, j - 1);
      var p, q :| 0 <= p < q < |t| && t[p] == WithoutAll(s, gone)[i] && t[q] == WithoutAll(s, gone)[j];
      assert s[p + 1] == t[p] && s[q + 1] == t[q];
    } else {
      assert WithoutAll(s, gone)[j] == WithoutAll(t, gone)[j - 1];
      assert WithoutAll(t, gone)[j - 1] in WithoutAll(t, gone);
      var q :| 0 <= q < |t| && t[q] == WithoutAll(t, gone)[j - 1];
      assert s[0] == WithoutAll(s, gone)[0] && s[q + 1] == t[q];
    }
  }

  // ---- The stack property ----

  lemma {:induction false} WithoutAllOfPrefix(s: seq<string>, x: string, c: nat)
    requires NoDuplicates(s)
    ensures Take([x] + WithoutAll(Take(s, c), {x}), c) == Take([x] + WithoutAll(s, {x}), c)
  {
    if c < |s| {
      assert s == s[..c] + s[c..];
      WithoutAllConcat(s[..c], s[c..], {x});
      if x in s[..c] {
        var i :| 0 <= i < c && s[i] == x;
        SingleRemoval(s[..c], x);
      } else {
        WithoutAllAbsent(s[..c], {x});
      }
    }
  }

  lemma {:induction false} SingleRemoval(s: seq<string>, x: string)
    requires NoDuplicates(s) && x in s
    ensures |WithoutAll(s, {x})| == |s| - 1
  {
    if s[0] == x {
      WithoutAllAbsent(s[1..], {x});
    } else {
      SingleRemoval(s[1..], x);
    }
  }

  /** At a fixed capacity the cache holds exactly the `c` most recently used distinct texts, in order. */
  lemma {:induction false} StackProperty(accesses: seq<string>, c: nat)
    ensures Run(accesses, c) == Take(Recency(accesses), c)
  {
    if accesses == [] {
    } else {
      var before := accesses[..|accesses| - 1];
      StackProperty(before, c);
      RecencyElements(before);
      WithoutAllOfPrefix(Recency(before), Last(accesses), c);
    }
  }

  /** A smaller cache is always a prefix of a larger one, so each of its hits is a hit there too. */
  lemma {:induction false} Inclusion(accesses: seq<string>, c: nat, c': nat)
    requires c <= c'
    ensures Run(accesses, c) <= Run(accesses, c')
    ensures forall x :: x in Run(accesses, c) ==> x in Run(accesses, c')
  {
    StackProperty(accesses, c);
    StackProperty(accesses, c');
  }

  // ---- Changing capacity, and clearing ----

  datatype Event = Use(sql: string) | Resize(capacity: nat) | Clear

  datatype Bounded = Bounded(lru: seq<string>, capacity: nat)

  function Step(b: Bounded, e: Event): Bounded {
    match e
    case Use(sql) => Bounded(Access(b.lru, b.capacity, sql), b.capacity)
    case Resize(c) => Bounded(Take(b.lru, c), c)
    case Clear => Bounded([], b.capacity)
  }

  function RunEvents(b: Bounded, events: seq<Event>): Bounded {
    if events == [] then b else Step(RunEvents(b, events[..|events| - 1]), Last(events))
  }

  /** The texts used since the cache was last cleared. */
  function UsesSinceClear(events: seq<Event>): seq<string> {
    if events == [] then []
    else
      var before := UsesSinceClear(events[..|events| - 1]);
      match Last(events)
      case Use(sql) => before + [sql]
      case Resize(_) => before
      case Clear => []
  }

  /** Whatever the capacity changes and clears in between, the cache is a prefix of the recency stack
      of the uses since the last clear: what it has evicted is never more recent than what it keeps. */
  lemma {:induction false} AlwaysARecencyPrefix(capacity: nat, events: seq<Event>)
    ensures var b := RunEvents(Bounded([], capacity), events);
            |b.lru| <= b.capacity && b.lru <= Recency(UsesSinceClear(events))
  {
    if events == [] {
    } else {
      var before := events[..|events| - 1];
      AlwaysARecencyPrefix(capacity, before);
      var b := RunEvents(Bounded([], capacity), before);
      var uses := UsesSinceClear(before);
      match Last(events)
      case Use(sql) =>
        assert (uses + [sql])[..|uses + [sql]| - 1] == uses;
        RecencyElements(uses);
        var stack := Recency(uses);
        assert stack == b.lru + stack[|b.lru|..];
        WithoutAllConcat(b.lru, stack[|b.lru|..], {sql});
      case Resize(c) =>
      case Clear =>
    }
  }

  // ---- How long an entry survives ----

  lemma TouchConcat(a: seq<string>, b: seq<string>, x: string)
    ensures Touch(a + b, x) == Touch(a, x) + WithoutAll(b, {x})
  {
    WithoutAllConcat(a, b, {x});
  }

  lemma TouchWithoutAll(recent: seq<string>, older: seq<string>, gone: set<string>, x: string)
    ensures Touch(recent + WithoutAll(older, gone), x) == Touch(recent, x) + WithoutAll(older, gone + {x})
  {
    TouchConcat(recent, WithoutAll(older, gone), x);
    WithoutAllTwice(older, gone, {x});
  }

  lemma RecencySnoc(accesses: seq<string>, x: string)
    ensures Recency(accesses + [x]) == Touch(Recency(accesses), x)
  {
    assert (accesses + [x])[..|accesses|] == accesses;
  }

  lemma {:induction false} RecencyConcat(a: seq<string>, b: seq<string>)
    ensures Recency(a + b) == Recency(b) + WithoutAll(Recency(a), Elements(b))
  {
    if b == [] {
      assert a + b == a;
      assert Elements(b) == {};
      WithoutAllAbsent(Recency(a), {});
    } else {
      var front, x := b[..|b| - 1], Last(b);
      RecencyConcat(a, front);
      assert a + b == (a + front) + [x] && b == front + [x];
      RecencySnoc(a + front, x);
      RecencySnoc(front, x);
      TouchWithoutAll(Recency(front), Recency(a), Elements(front), x);
      ElementsSnoc(front, x);
    }
  }

  lemma ElementsSnoc(front: seq<string>, x: string)
    ensures Elements(front + [x]) == Elements(front) + {x}
  {
  }

  /** An entry survives exactly while fewer distinct other texts than the capacity were used since. */
  lemma HeldSurvives(before: seq<string>, x: string, after: seq<string>, c: nat)
    requires x !in after
    ensures x in Run(before + [x] + after, c) <==> |Elements(after)| < c
  {
    var all := before + [x] + after;
    StackProperty(all, c);
    RecencyConcat(before + [x], after);
    assert (before + [x])[..|before|] == before;
    var top, rest := Recency(after), WithoutAll(Recency(before + [x]), Elements(after));
    assert Recency(before + [x])[0] == x;
    assert rest[0] == x;
    RecencyElements(after);
    CardinalityOfElements(top);
    assert Elements(top) == Elements(after);
    RecencyElements(all);
    assert Recency(all)[|top|] == x;
    if c <= |top| {
      assert x !in Take(Recency(all), c);
    } else {
      assert Take(Recency(all), c)[|top|] == x;
    }
  }

  // ---- Cyclic working sets ----

  /** Which statement of a loop over `k` statements is access number `i`: `i` modulo `k`. */
  function Turn(i: nat, k: nat): (t: nat)
    requires k > 0
    ensures t < k
  {
    if i < k then i else Turn(i - k, k)
  }

  /** The first `n` accesses of a loop over the statements `ks`. */
  function Cycle(ks: seq<string>, n: nat): seq<string>
    requires ks != []
  {
    seq(n, i requires 0 <= i => ks[Turn(i, |ks|)])
  }

  lemma {:induction false} TurnsDiffer(a: nat, b: nat, k: nat)
    requires a < b < a + k
    ensures Turn(a, k) != Turn(b, k)
  {
    if a < k {
    } else {
      TurnsDiffer(a - k, b - k, k);
    }
  }

  lemma CycleWindow(ks: seq<string>, start: nat, i: nat)
    requires NoDuplicates(ks) && start <= i < start + |ks|
    ensures NoDuplicates(Cycle(ks, i)[start..])
  {
    var w := Cycle(ks, i)[start..];
    forall p, q | 0 <= p < q < |w|
      ensures w[p] != w[q]
    {
      TurnsDiffer(start + p, start + q, |ks|);
    }
  }

  /** Repeating the same distinct statements in the same order, access `i` hits if and only if the
      first pass is over and the whole working set fits. So with room for all of them only the first
      pass misses, and with room for one fewer every access of every pass misses. */
  lemma CyclicWorkingSet(ks: seq<string>, c: nat, i: nat)
    requires NoDuplicates(ks) && ks != []
    ensures ks[Turn(i, |ks|)] in Run(Cycle(ks, i), c) <==> |ks| <= i && |ks| <= c
  {
    if i < |ks| {
      FirstPassMisses(ks, c, i);
    } else {
      LaterPass(ks, c, i);
    }
  }

  lemma FirstPassMisses(ks: seq<string>, c: nat, i: nat)
    requires NoDuplicates(ks) && i < |ks|
    ensures ks[Turn(i, |ks|)] !in Run(Cycle(ks, i), c)
  {
    var all, x := Cycle(ks, i), ks[i];
    StackProperty(all, c);
    RecencyElements(all);
    assert x in Run(all, c) ==> x in Recency(all);
    assert Turn(i, |ks|) == i;
    forall j | 0 <= j < i
      ensures all[j] != x
    {
      assert all[j] == ks[j];
    }
  }

  lemma LaterPass(ks: seq<string>, c: nat, i: nat)
    requires NoDuplicates(ks) && ks != [] && |ks| <= i
    ensures ks[Turn(i, |ks|)] in Run(Cycle(ks, i), c) <==> |ks| <= c
  {
    var all, start, x := Cycle(ks, i), i - |ks|, ks[Turn(i, |ks|)];
    var after := all[start + 1..];
    assert all[start] == x;
    assert all == all[..start] + [x] + after;
    CycleWindow(ks, start + 1, i);
    CardinalityOfElements(after);
    forall p | 0 <= p < |after|
      ensures after[p] != x
    {
      TurnsDiffer(start, start + 1 + p, |ks|);
    }
    HeldSurvives(all[..start], x, after, c);
  }
}
