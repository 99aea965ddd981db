/** The two intrusive lists of the `exec.run` pool in core/src/rpc.c: the FIFO of requests
    not yet started, and the list of all requests not yet finished. */
module ExecLists {
  import opened Bytes

  const MAX_QUEUE: nat := 64

  /** What each critical section does to the lists, as a function of their contents. */
  datatype Lists<T(==)> = Lists(queue: seq<T>, active: seq<T>, running: set<T>)

  function Without<T(==)>(s: seq<T>, x: T): (r: seq<T>)
    ensures x !in s ==> r == s
    ensures forall y :: y in r ==> y in s
  {
    if s == [] then [] else if s[0] == x then s[1..] else [s[0]] + Without(s[1..], x)
  }

  /** No element occurs twice. */
  ghost predicate NoDup<T>(s: seq<T>)
  {
    s == [] || (s[0] !in s[1..] && NoDup(s[1..]))
  }

  lemma {:induction false} NoDupIndex<T>(s: seq<T>, i: nat, j: nat)
    requires NoDup(s) && i < j < |s|
    ensures s[i] != s[j]
  {
    if i == 0 {
      assert s[j] == s[1..][j - 1];
    } else {
      NoDupIndex(s[1..], i - 1, j - 1);
    }
  }

  function Enqueued<T>(l: Lists<T>, x: T): Lists<T>
  {
    l.(queue := l.queue + [x], active := [x] + l.active)
  }

  function Taken<T>(l: Lists<T>): Lists<T>
    requires l.queue != []
  {
    l.(queue := l.queue[1..], running := l.running + {l.queue[0]})
  }

  function Finished<T>(l: Lists<T>, x: T): Lists<T>
  {
    l.(active := Without(l.active, x), running := l.running - {x})
  }

  function Dropped<T>(l: Lists<T>, x: T): Lists<T>
  {
    l.(queue := Without(l.queue, x), active := Without(l.active, x))
  }

  /** The first request in list order that a cancel names. */
  function FirstMatch<T>(s: seq<T>, matches: T -> bool): (m: Option<T>)
    ensures m.Some? ==> m.value in s && matches(m.value)
    ensures m.None? ==> forall x :: x in s ==> !matches(x)
  {
    if s == [] then None else if matches(s[0]) then Some(s[0]) else FirstMatch(s[1..], matches)
  }

  /** The active list is the disjoint union of the queue and the running set. */
  ghost predicate InOrder<T>(l: Lists<T>)
  {
    && NoDup(l.queue) && NoDup(l.active) && |l.queue| <= MAX_QUEUE
    && (forall x :: x in l.active ==> x in l.queue || x in l.running)
    && (forall x :: x in l.queue ==> x in l.active && x !in l.running)
    && (forall x :: x in l.running ==> x in l.active)
  }

  lemma {:induction false} WithoutMembers<T>(s: seq<T>, x: T)
    requires NoDup(s) && x in s
    ensures NoDup(Without(s, x)) && x !in Without(s, x)
    ensures forall y :: y in s ==> y == x || y in Without(s, x)
    ensures |Without(s, x)| == |s| - 1
  {
    if s[0] != x {
      WithoutMembers(s[1..], x);
      var w := Without(s[1..], x);
      assert ([s[0]] + w)[1..] == w;
    }
    assert s == [s[0]] + s[1..];
  }

  /** Where the removed element was. */
  lemma {:induction false} WithoutAt<T>(s: seq<T>, k: nat)
    requires k < |s| && s[k] !in s[..k]
    ensures Without(s, s[k]) == s[..k] + s[k + 1..]
  {
    if k > 0 {
      assert s[1..][k - 1] == s[k] && s[1..][..k - 1] == s[..k][1..];
      assert s[..k][0] == s[0];
      WithoutAt(s[1..], k - 1);
      assert s[..k] == [s[0]] + s[1..][..k - 1];
    }
  }

  lemma {:induction false} NoDupAppend<T>(s: seq<T>, x: T)
    requires NoDup(s) && x !in s
    ensures NoDup(s + [x])
  {
    if s != [] {
      assert (s + [x])[1..] == s[1..] + [x];
      NoDupAppend(s[1..], x);
    }
  }

  lemma EnqueueKeepsOrder<T>(l: Lists<T>, x: T)
    requires InOrder(l) && x !in l.active && |l.queue| < MAX_QUEUE
    ensures InOrder(Enqueued(l, x))
  {
    NoDupAppend(l.queue, x);
    assert ([x] + l.active)[1..] == l.active;
  }

  lemma TakeKeepsOrder<T>(l: Lists<T>)
    requires InOrder(l) && l.queue != []
    ensures InOrder(Taken(l)) && l.queue[0] !in Taken(l).queue
  {
    assert l.queue == [l.queue[0]] + l.queue[1..];
  }

  lemma FinishKeepsOrder<T>(l: Lists<T>, x: T)
    requires InOrder(l) && x in l.running
    ensures InOrder(Finished(l, x)) && x !in Finished(l, x).active
  {
    WithoutMembers(l.active, x);
  }

  lemma DropKeepsOrder<T>(l: Lists<T>, x: T)
    requires InOrder(l) && x in l.queue
    ensures InOrder(Dropped(l, x)) && x !in Dropped(l, x).active && x !in Dropped(l, x).queue
  {
    WithoutMembers(l.active, x);
    WithoutMembers(l.queue, x);
  }
}
