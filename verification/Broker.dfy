/**
 The debug message broker (Client/Src/MessageBroker.cpp): dispatch with a per-thread guard against recursion.
 Subscribers are arbitrary: on each message a subscriber may send any finite list of messages, chosen from everything
 delivered so far.  Only the number of distinct senders is finite.
 */
module Broker {

  type Source = nat
  type Thread = nat
  type Subscriber = nat

  datatype Message = Message(source: Source, kind: nat)
  datatype Delivery = Delivery(to: Subscriber, message: Message)

  /** Who is interested, and what `OnMessage` sends in turn. */
  datatype Behaviour = Behaviour(ready: (Subscriber, nat) -> bool,
                                 react: (seq<Delivery>, Subscriber, Message) -> seq<Message>)

  /** Every sender there is belongs to `sources`. */
  ghost predicate Within(b: Behaviour, sources: set<Source>) {
    forall log: seq<Delivery>, to: Subscriber, m: Message, i ::
      0 <= i < |b.react(log, to, m)| ==> b.react(log, to, m)[i].source in sources
  }

  type Callers = map<Thread, set<Source>>

  /** Senders active on a thread. */
  function ActiveIn(callers: Callers, thread: Thread): set<Source> {
    if thread in callers then callers[thread] else {}
  }

  function Entered(callers: Callers, thread: Thread, source: Source): Callers {
    callers[thread := ActiveIn(callers, thread) + {source}]
  }

  /** A thread's entry is dropped together with its last sender. */
  function Left(callers: Callers, thread: Thread, source: Source): Callers {
    var left := ActiveIn(callers, thread) - {source};
    if left == {} then callers - {thread} else callers[thread := left]
  }

  ghost predicate NoEmptyEntry(callers: Callers) {
    forall t :: t in callers ==> callers[t] != {}
  }

  /** Leaving undoes entering. */
  lemma LeaveUndoesEnter(callers: Callers, thread: Thread, source: Source)
    requires NoEmptyEntry(callers) && source !in ActiveIn(callers, thread)
    ensures Left(Entered(callers, thread, source), thread, source) == callers
    ensures NoEmptyEntry(Entered(callers, thread, source))
  {
    assert ActiveIn(callers, thread) + {source} - {source} == ActiveIn(callers, thread);
  }

  /** The deliveries of one sender's messages. */
  function From(log: seq<Delivery>, source: Source): seq<Delivery> {
    if log == [] then []
    else (if log[0].message.source == source then [log[0]] else []) + From(log[1..], source)
  }

  lemma {:induction false} FromAppend(a: seq<Delivery>, b: seq<Delivery>, source: Source)
    ensures From(a + b, source) == From(a, source) + From(b, source)
  {
    if a == [] {
      assert a + b == b;
    } else {
      assert (a + b)[1..] == a[1..] + b;
      FromAppend(a[1..], b, source);
      var first := if a[0].message.source == source then [a[0]] else [];
      assert first + (From(a[1..], source) + From(b, source)) == first + From(a[1..], source) + From(b, source);
    }
  }

  /** The first `n` subscribers that are interested, each with the message, in order. */
  function Due(subscribers: seq<Subscriber>, n: nat, message: Message, b: Behaviour): seq<Delivery>
    requires n <= |subscribers|
  {
    if n == 0 then []
    else Due(subscribers, n - 1, message, b)
         + (if b.ready(subscribers[n - 1], message.kind) then [Delivery(subscribers[n - 1], message)] else [])
  }

  /** No message of an active sender is delivered. */
  predicate Silent(news: seq<Delivery>, active: set<Source>) {
    forall source :: source in active ==> From(news, source) == []
  }

  /** Every delivery is to an interested subscriber. */
  predicate Wanted(news: seq<Delivery>, subscribers: seq<Subscriber>, b: Behaviour) {
    forall i :: 0 <= i < |news| ==> news[i].to in subscribers && b.ready(news[i].to, news[i].message.kind)
  }

  lemma SilentAppend(x: seq<Delivery>, y: seq<Delivery>, active: set<Source>)
    requires Silent(x, active) && Silent(y, active)
    ensures Silent(x + y, active)
  {
    forall source | source in active
      ensures From(x + y, source) == []
    {
      FromAppend(x, y, source);
    }
  }

  /** Of a delivery and the sends it sets off, the sender's own is the delivery alone. */
  lemma OneDelivered(x: seq<Delivery>, d: Delivery, y: seq<Delivery>, active: set<Source>)
    requires Silent(y, active + {d.message.source})
    ensures From(x + ([d] + y), d.message.source) == From(x, d.message.source) + [d]
    ensures d.message.source !in active && Silent(x, active) ==> Silent(x + ([d] + y), active)
  {
    forall source | source in active + {d.message.source}
      ensures From(x + ([d] + y), source) == From(x, source) + (if source == d.message.source then [d] else [])
    {
      FromAppend(x, [d] + y, source);
      FromAppend([d], y, source);
      assert [d][1..] == [];
      assert From([d], source) + [] == From([d], source);
    }
    assert d.message.source in active + {d.message.source};
    if d.message.source !in active && Silent(x, active) {
      forall source | source in active
        ensures From(x + ([d] + y), source) == []
      {
        assert source in active + {d.message.source};
      }
    }
  }

  lemma FewerIdle(sources: set<Source>, active: set<Source>, source: Source)
    requires source in sources && source !in active
    ensures |sources - (active + {source})| == |sources - active| - 1
  {
    assert sources - active == (sources - (active + {source})) + {source};
  }

  class MessageBroker {
    const subscribers: seq<Subscriber>
    /** Senders active on each thread that is currently dispatching. */
    var callers: map<Thread, set<Source>>

    constructor (subscribers: seq<Subscriber>)
      ensures callers == map[] && this.subscribers == subscribers
    {
      this.subscribers := subscribers;
      callers := map[];
    }

    function Active(thread: Thread): set<Source>
      reads this
    {
      ActiveIn(callers, thread)
    }

    ghost predicate Valid()
      reads this
    {
      NoEmptyEntry(callers)
    }

    /** First locked section: note the sender as active, unless it already is. */
    method Enter(thread: Thread, source: Source) returns (ok: bool)
      modifies this
      ensures ok == (source !in old(Active(thread)))
      ensures callers == if ok then Entered(old(callers), thread, source) else old(callers)
    {
      if thread !in callers {
        assert {} + {source} == {source};
        callers := callers[thread := {source}];
        return true;
      }
      if source in callers[thread] {
        return false;
      }
      callers := callers[thread := callers[thread] + {source}];
      return true;
    }

    /** Second locked section: forget the sender, and the thread with its last one. */
    method Leave(thread: Thread, source: Source)
      requires thread in callers
      modifies this
      ensures callers == Left(old(callers), thread, source)
    {
      callers := callers[thread := callers[thread] - {source}];
      if callers[thread] == {} {
        callers := callers - {thread};
      }
    }

    /**
     Nested sends on one thread always terminate: each accepted call makes one more sender active, and a sender that is
     active is rejected.  The nesting is at most one deeper than the number of idle senders; an accepted call delivers
     this message, and of this sender no other, to every interested subscriber once and in order; nothing is delivered
     for a rejected call, on behalf of an active sender, or to a subscriber that is not interested; and on return every
     thread's active senders are exactly what they were on entry.
     */
    method SendMessage(thread: Thread, message: Message, b: Behaviour, log: seq<Delivery>, ghost sources: set<Source>)
      returns (after: seq<Delivery>, accepted: bool, depth: nat)
      requires Valid() && Active(thread) <= sources && message.source in sources && Within(b, sources)
      modifies this
      ensures Valid() && callers == old(callers)
      ensures accepted <==> message.source !in old(Active(thread))
      ensures log <= after
      ensures if accepted
              then From(after[|log|..], message.source) == Due(subscribers, |subscribers|, message, b)
              else after == log
      ensures Silent(after[|log|..], old(Active(thread))) && Wanted(after[|log|..], subscribers, b)
      ensures 1 <= depth <= |sources - old(Active(thread))| + 1
      decreases |sources - Active(thread)|, 1, 0
    {
      after, depth := log, 1;
      accepted := Enter(thread, message.source);
      if !accepted {
        return;
      }
      LeaveUndoesEnter(old(callers), thread, message.source);
      ghost var entered := callers;
      ghost var active, idle := old(Active(thread)), sources - Active(thread);
      FewerIdle(sources, active, message.source);
      ghost var news: seq<Delivery> := [];
      assert log + news == log;
      var i := 0;
      while i < |subscribers|
        invariant i <= |subscribers| && callers == entered && after == log + news && 1 <= depth <= |idle| + 2
        invariant From(news, message.source) == Due(subscribers, i, message, b)
        invariant Silent(news, active) && Wanted(news, subscribers, b)
      {
        if b.ready(subscribers[i], message.kind) {
          ghost var more;
          var nested: nat;
          after, nested, more := Inform(thread, Delivery(subscribers[i], message), b, after, sources);
          if nested + 1 > depth {
            depth := nested + 1;
          }
          OneDelivered(news, Delivery(subscribers[i], message), more, active);
          news := news + ([Delivery(subscribers[i], message)] + more);
        }
        i := i + 1;
      }
      assert after[|log|..] == news;
      Leave(thread, message.source);
    }

    /** One subscriber is told, and sends in turn: `more` is what that delivers. */
    method Inform(thread: Thread, d: Delivery, b: Behaviour, log: seq<Delivery>, ghost sources: set<Source>)
      returns (after: seq<Delivery>, depth: nat, ghost more: seq<Delivery>)
      requires Valid() && Active(thread) <= sources && Within(b, sources) && d.message.source in Active(thread)
      requires d.to in subscribers && b.ready(d.to, d.message.kind)
      modifies this
      ensures Valid() && callers == old(callers) && after == log + ([d] + more)
      ensures Silent(more, old(Active(thread))) && Wanted([d] + more, subscribers, b)
      ensures depth <= |sources - old(Active(thread))| + 1
      decreases |sources - Active(thread)|, 3, 0
    {
      var delivered := log + [d];
      after, depth := SendAll(thread, b.react(delivered, d.to, d.message), b, delivered, sources);
      more := after[|delivered|..];
      assert delivered + more == log + ([d] + more);
    }

    /** What one `OnMessage` sends, in order. */
    method SendAll(thread: Thread, sends: seq<Message>, b: Behaviour, log: seq<Delivery>, ghost sources: set<Source>)
      returns (after: seq<Delivery>, depth: nat)
      requires Valid() && Active(thread) <= sources && Within(b, sources)
      requires forall i :: 0 <= i < |sends| ==> sends[i].source in sources
      modifies this
      ensures Valid() && callers == old(callers) && log <= after
      ensures Silent(after[|log|..], old(Active(thread))) && Wanted(after[|log|..], subscribers, b)
      ensures depth <= |sources - old(Active(thread))| + 1
      decreases |sources - Active(thread)|, 2, |sends|
    {
      after, depth := log, 0;
      assert log[|log|..] == [];
      var j := 0;
      while j < |sends|
        invariant j <= |sends| && callers == old(callers) && Valid() && log <= after
        invariant depth <= |sources - old(Active(thread))| + 1
        invariant Silent(after[|log|..], old(Active(thread))) && Wanted(after[|log|..], subscribers, b)
      {
        var ok, nested;
        ghost var before := after;
        after, ok, nested := SendMessage(thread, sends[j], b, after, sources);
        if nested > depth {
          depth := nested;
        }
        SilentAppend(before[|log|..], after[|before|..], old(Active(thread)));
        assert after[|log|..] == before[|log|..] + after[|before|..];
        j := j + 1;
      }
    }
  }
}
