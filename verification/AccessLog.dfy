/**
 The bounded access log and its live subscribers. `added` is the ghost history of every
 entry ever added; the store is tied to its tail and each subscriber's stream to what was
 added since it subscribed.
 */
module AccessLog {

  const CHANNEL_CAPACITY := 64

  /** The last n elements. */
  function Last<T>(s: seq<T>, n: nat): (r: seq<T>)
    ensures |r| == if |s| <= n then |s| else n
  {
    if |s| <= n then s else s[|s| - n..]
  }

  /** a is b with some elements left out. */
  ghost predicate Subsequence<T>(a: seq<T>, b: seq<T>) {
    if a == [] then true
    else
      b != [] &&
      var b' := b[..|b| - 1];
      Subsequence(a, b') || (a[|a| - 1] == b[|b| - 1] && Subsequence(a[..|a| - 1], b'))
  }

  lemma {:induction false} SubsequenceSize<T>(a: seq<T>, b: seq<T>)
    requires Subsequence(a, b)
    ensures |a| <= |b| && (|a| == |b| ==> a == b)
  {
    if a == [] {
    } else {
      var a', b' := a[..|a| - 1], b[..|b| - 1];
      if Subsequence(a, b') {
        SubsequenceSize(a, b');
      } else {
        SubsequenceSize(a', b');
        assert a == a' + [a[|a| - 1]] && b == b' + [b[|b| - 1]];
      }
    }
  }

  /** A new entry either reaches a subscriber or not; either way its stream stays a subsequence. */
  lemma SubsequenceGrows<T>(a: seq<T>, b: seq<T>, x: T)
    requires Subsequence(a, b)
    ensures Subsequence(a, b + [x]) && Subsequence(a + [x], b + [x])
  {
    assert (b + [x])[..|b + [x]| - 1] == b;
    assert (a + [x])[..|a + [x]| - 1] == a;
  }

  /** Evicting the oldest when full keeps the last m entries. */
  lemma LastGrows<T>(s: seq<T>, x: T, m: nat)
    requires m >= 1
    ensures Last(s + [x], m) == (if |Last(s, m)| >= m then Last(s, m)[1..] else Last(s, m)) + [x]
  {}

  lemma LastOfLast<T>(s: seq<T>, n: nat, m: nat)
    ensures Last(Last(s, m), n) == Last(s, if n < m then n else m)
  {}

  /** A buffered channel to one subscriber. */
  class Channel<T> {
    var queue: seq<T>
    var closed: bool
    ghost var delivered: seq<T>   // what the subscriber has received
    ghost var since: nat          // how many entries had been added when it subscribed
    ghost var dropped: nat        // entries it missed

    constructor (ghost since: nat)
      ensures queue == [] && !closed && delivered == [] && this.since == since && dropped == 0
    {
      queue, closed, delivered, this.since, dropped := [], false, [], since, 0;
    }

    ghost function Stream(): seq<T>
      reads this
    {
      delivered + queue
    }

    /** What this subscriber may claim, given everything added so far. */
    ghost predicate Faithful(added: seq<T>)
      reads this
    {
      && |queue| <= CHANNEL_CAPACITY && since <= |added|
      && Subsequence(Stream(), added[since..])
      && |Stream()| + dropped == |added| - since
    }

    /** The subscriber takes the oldest queued entry. */
    method Receive() returns (x: T)
      requires queue != []
      modifies this
      ensures x == old(queue)[0] && queue == old(queue)[1..] && delivered == old(delivered) + [x]
      ensures Stream() == old(Stream())
      ensures closed == old(closed) && since == old(since) && dropped == old(dropped)
    {
      x := queue[0];
      queue, delivered := queue[1..], delivered + [x];
    }

    /** A non-blocking send, as one addition to the log makes it. */
    method Offer(x: T, ghost added: seq<T>)
      requires Faithful(added) && !closed
      modifies this
      ensures Faithful(added + [x]) && !closed && since == old(since) && delivered == old(delivered)
      ensures if |old(queue)| < CHANNEL_CAPACITY
              then queue == old(queue) + [x] && dropped == old(dropped)
              else queue == old(queue) && dropped == old(dropped) + 1
    {
      SubsequenceGrows(Stream(), added[since..], x);
      assert (added + [x])[since..] == added[since..] + [x];
      assert delivered + (queue + [x]) == Stream() + [x];
      if |queue| < CHANNEL_CAPACITY {
        queue := queue + [x];
      } else {
        dropped := dropped + 1;
      }
    }
  }

  /** The notification loop. */
  method Notify<T>(listeners: seq<Channel<T>>, e: T, ghost before: seq<T>)
    requires forall i, j :: 0 <= i < j < |listeners| ==> listeners[i] != listeners[j]
    requires forall k :: 0 <= k < |listeners| ==> !listeners[k].closed && listeners[k].Faithful(before)
    modifies listeners
    ensures forall k :: 0 <= k < |listeners| ==>
              && !listeners[k].closed && listeners[k].Faithful(before + [e])
              && listeners[k].delivered == old(listeners[k].delivered)
              && if |old(listeners[k].queue)| < CHANNEL_CAPACITY
                 then listeners[k].queue == old(listeners[k].queue) + [e]
                      && listeners[k].dropped == old(listeners[k].dropped)
                 else listeners[k].queue == old(listeners[k].queue)
                      && listeners[k].dropped == old(listeners[k].dropped) + 1
  {
    hide Subsequence;
    for i := 0 to |listeners|
      invariant forall k :: i <= k < |listeners| ==> unchanged(listeners[k])
      invariant forall k :: 0 <= k < i ==>
                  && !listeners[k].closed && listeners[k].Faithful(before + [e])
                  && listeners[k].delivered == old(listeners[k].delivered)
                  && if |old(listeners[k].queue)| < CHANNEL_CAPACITY
                     then listeners[k].queue == old(listeners[k].queue) + [e]
                          && listeners[k].dropped == old(listeners[k].dropped)
                     else listeners[k].queue == old(listeners[k].queue)
                          && listeners[k].dropped == old(listeners[k].dropped) + 1
    {
      listeners[i].Offer(e, before);
    }
  }

  class Store<T> {
    var entries: seq<T>
    const maxSize: nat
    var listeners: seq<Channel<T>>
    ghost var added: seq<T>

    ghost predicate Valid()
      reads this, listeners
    {
      && entries == Last(added, maxSize)
      && (forall i, j :: 0 <= i < j < |listeners| ==> listeners[i] != listeners[j])
      && (forall ch :: ch in listeners ==> !ch.closed && ch.Faithful(added))
    }

    constructor (maxSize: nat)
      ensures Valid() && entries == [] && added == [] && listeners == [] && this.maxSize == maxSize
    {
      entries, this.maxSize, listeners, added := [], maxSize, [], [];
    }

    /**
     One addition with its notifications: the store and every subscriber move together. A
     store of size 0 cannot take one, for there is no oldest entry to evict.
     */
    method Add(e: T)
      requires Valid() && maxSize >= 1
      modifies this, listeners
      ensures Valid() && added == old(added) + [e] && listeners == old(listeners)
      ensures forall ch :: ch in listeners ==>
                && ch.delivered == old(ch.delivered)
                && if old(|ch.queue|) < CHANNEL_CAPACITY
                   then ch.queue == old(ch.queue) + [e] && ch.dropped == old(ch.dropped)
                   else ch.queue == old(ch.queue) && ch.dropped == old(ch.dropped) + 1
    {
      hide Last, Subsequence, Channel.Faithful;
      LastGrows(added, e, maxSize);
      if |entries| >= maxSize { entries := entries[1..]; }
      entries := entries + [e];
      ghost var before := added;
      added := added + [e];
      Notify(listeners, e, before);
    }

    /** The most recent entries, oldest first: the last min(n, maxSize) of all ever added. */
    method Recent(n: nat) returns (r: seq<T>)
      requires Valid()
      ensures r == Last(added, if n < maxSize then n else maxSize)
    {
      LastOfLast(added, n, maxSize);
      var take := if n > |entries| then |entries| else n;
      r := entries[|entries| - take..];
    }

    method Subscribe() returns (ch: Channel<T>)
      requires Valid()
      modifies this
      ensures Valid() && fresh(ch) && listeners == old(listeners) + [ch]
      ensures added == old(added) && entries == old(entries)
      ensures ch.queue == [] && ch.delivered == [] && ch.since == |added|
    {
      ch := new Channel(|added|);
      listeners := listeners + [ch];
    }

    /** Removes and closes a listener; anything else is ignored, so no channel is closed twice. */
    method Unsubscribe(ch: Channel<T>)
      requires Valid()
      modifies this, listeners
      ensures Valid() && added == old(added) && entries == old(entries)
      ensures ch in old(listeners) ==> ch.closed && ch !in listeners
      ensures ch in old(listeners) ==> exists i ::
                0 <= i < |old(listeners)| && listeners == old(listeners)[..i] + old(listeners)[i + 1..]
      ensures ch !in old(listeners) ==> listeners == old(listeners) && forall l :: l in listeners ==> unchanged(l)
      ensures forall l :: l in listeners ==> unchanged(l)
    {
      for i := 0 to |listeners|
        invariant unchanged(this) && forall l :: l in listeners ==> unchanged(l)
        invariant ch !in listeners[..i]
      {
        if listeners[i] == ch {
          listeners := listeners[..i] + listeners[i + 1..];
          ch.closed := true;
          return;
        }
      }
    }
  }

  /** A subscriber's stream is complete exactly if it never missed an entry. */
  lemma CompleteExactly<T>(ch: Channel<T>, added: seq<T>)
    requires ch.Faithful(added)
    ensures ch.Stream() == added[ch.since..] <==> ch.dropped == 0
  {
    SubsequenceSize(ch.Stream(), added[ch.since..]);
  }
}
