/** A bounded first-in first-out queue that makes room by dropping its oldest element, and the
    history of one: the shape of both the send queue and the jitter buffer. */
module DropOldest {

  /** The queue after a push: at capacity the oldest element goes first. */
  function Push<T>(q: seq<T>, x: T, cap: nat): seq<T>
    requires cap > 0
  {
    (if |q| >= cap then q[1..] else q) + [x]
  }

  /** History of a queue. Elements are numbered from zero as they are pushed; `ids` are the
      numbers of the queued elements, carried along with them and never computed from the rest. */
  datatype Log<T> = Log(all: seq<T>, ids: seq<nat>, popped: seq<nat>, dropped: seq<nat>)

  function LogPush<T>(l: Log<T>, x: T, cap: nat): Log<T>
    requires cap > 0
  {
    Log(l.all + [x], Push(l.ids, |l.all|, cap), l.popped,
        if |l.ids| >= cap then l.dropped + [l.ids[0]] else l.dropped)
  }

  function LogPop<T>(l: Log<T>): Log<T>
    requires l.ids != []
  {
    l.(ids := l.ids[1..], popped := l.popped + [l.ids[0]])
  }

  function LogClear<T>(l: Log<T>): Log<T> {
    l.(ids := [], dropped := l.dropped + l.ids)
  }

  ghost predicate Increasing(s: seq<nat>) {
    forall i, j :: 0 <= i < j < |s| ==> s[i] < s[j]
  }

  /** How many elements have left the queue. */
  function Gone<T>(l: Log<T>): int {
    |l.all| - |l.ids|
  }

  /** The queue is a sliding window: it holds exactly the last |q| elements pushed, in order, and
      each earlier element was either popped or dropped, once, in increasing order. */
  ghost predicate Window<T>(l: Log<T>, q: seq<T>, cap: nat) {
    && |q| == |l.ids| <= cap
    && |l.ids| <= |l.all|
    && (forall i :: 0 <= i < |l.ids| ==> l.ids[i] == Gone(l) + i)
    && q == l.all[Gone(l)..]
    && Increasing(l.popped) && Increasing(l.dropped)
    && (forall k :: k in l.popped || k in l.dropped ==> k < Gone(l))
    && (forall k :: 0 <= k < Gone(l) ==> (k in l.popped <==> k !in l.dropped))
  }

  lemma IncreasingAppend(s: seq<nat>, t: seq<nat>, bound: int)
    requires Increasing(s) && Increasing(t)
    requires forall k :: k in s ==> k < bound
    requires forall k :: k in t ==> bound <= k
    ensures Increasing(s + t)
  {
    forall i, j | 0 <= i < j < |s + t|
      ensures (s + t)[i] < (s + t)[j]
    {
      if i < |s| <= j {
        assert s[i] in s && t[j - |s|] in t;
      }
    }
  }

  lemma PushKeeps<T>(l: Log<T>, q: seq<T>, x: T, cap: nat)
    requires cap > 0 && Window(l, q, cap)
    ensures Window(LogPush(l, x, cap), Push(q, x, cap), cap)
  {
    var m := LogPush(l, x, cap);
    if |q| >= cap {
      assert l.ids[0] == Gone(l);
      IncreasingAppend(l.dropped, [l.ids[0]], Gone(l));
      assert forall k :: k in m.dropped <==> k in l.dropped || k == Gone(l);
      assert Push(q, x, cap) == m.all[Gone(m)..];
    } else {
      assert Push(q, x, cap) == m.all[Gone(m)..];
    }
  }

  /** Nothing was dropped before `cap` newer elements stood behind it. */
  ghost predicate DropsLate<T>(l: Log<T>, cap: nat) {
    forall k :: k in l.dropped ==> k + cap < |l.all|
  }

  lemma PushDropsLate<T>(l: Log<T>, q: seq<T>, x: T, cap: nat)
    requires cap > 0 && Window(l, q, cap) && DropsLate(l, cap)
    ensures DropsLate(LogPush(l, x, cap), cap)
  {
    if |l.ids| >= cap {
      assert l.ids[0] == Gone(l);
    }
  }

  lemma PopKeeps<T>(l: Log<T>, q: seq<T>, cap: nat)
    requires Window(l, q, cap) && q != []
    ensures Window(LogPop(l), q[1..], cap)
    ensures q[0] == l.all[l.ids[0]] && |l.all| - cap <= l.ids[0] < |l.all|
  {
    var m := LogPop(l);
    assert l.ids[0] == Gone(l);
    IncreasingAppend(l.popped, [l.ids[0]], Gone(l));
    assert forall k :: k in m.popped <==> k in l.popped || k == Gone(l);
    assert q[1..] == m.all[Gone(m)..];
  }

  lemma ClearKeeps<T>(l: Log<T>, q: seq<T>, cap: nat)
    requires Window(l, q, cap)
    ensures Window(LogClear(l), [], cap)
  {
    var m := LogClear(l);
    IncreasingAppend(l.dropped, l.ids, Gone(l));
    assert forall k :: k in m.dropped <==> k in l.dropped || k in l.ids;
    forall k | Gone(l) <= k < |l.all|
      ensures k in l.ids
    {
      assert l.ids[k - Gone(l)] == k;
    }
  }

  /** With nothing dropped and nothing queued, everything pushed was popped, in order. */
  lemma AllPopped<T>(l: Log<T>, q: seq<T>, cap: nat)
    requires Window(l, q, cap) && l.dropped == [] && q == []
    ensures l.popped == seq(|l.all|, i => i)
  {
    assert forall k :: 0 <= k < |l.all| ==> k in l.popped;
    assert forall i :: 0 <= i < |l.popped| ==> l.popped[i] in l.popped;
    IncreasingAll(l.popped, |l.all|);
  }

  lemma {:induction false} IncreasingAll(s: seq<nat>, n: nat)
    requires Increasing(s)
    requires forall k :: 0 <= k < n ==> k in s
    requires forall i :: 0 <= i < |s| ==> s[i] < n
    ensures s == seq(n, i => i)
  {
    if n == 0 {
      assert s == [];
    } else {
      assert n - 1 in s;
      var i :| 0 <= i < |s| && s[i] == n - 1;
      var last := s[|s| - 1];
      assert last < n;
      assert i == |s| - 1;
      var t := s[..i];
      forall k | 0 <= k < n - 1
        ensures k in t
      {
        assert k in s;
        var j :| 0 <= j < |s| && s[j] == k;
        assert t[j] == k;
      }
      IncreasingAll(t, n - 1);
      assert s == t + [n - 1];
    }
  }
}
