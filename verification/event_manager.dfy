/**
 * The Rust `EventManager`: a queue of dispatched events and one handler per
 * event kind. Handlers are function pointers the model treats as opaque
 * values of type H.
 */
module EventManager {
  import opened Events

  datatype Manager<H> = Manager(queue: seq<Event>, handlers: map<EventKind, H>)

  /** `EventManager::new`. */
  function New<H>(): (m: Manager<H>)
    ensures m.queue == [] && m.handlers == map[]
  {
    Manager([], map[])
  }

  /** `register`: binds the kind to the handler, replacing an earlier binding of that kind only. */
  function Register<H>(m: Manager<H>, kind: EventKind, handler: H): (m': Manager<H>)
    ensures kind in m'.handlers && m'.handlers[kind] == handler
    ensures forall k :: k in m.handlers && k != kind ==> k in m'.handlers && m'.handlers[k] == m.handlers[k]
    ensures m'.handlers.Keys == m.handlers.Keys + {kind}
    ensures m'.queue == m.queue
  {
    m.(handlers := m.handlers[kind := handler])
  }

  /** `dispatch`: the event joins the back of the queue. */
  function Dispatch<H>(m: Manager<H>, e: Event): (m': Manager<H>)
    ensures |m'.queue| == |m.queue| + 1
    ensures m'.queue[..|m.queue|] == m.queue && m'.queue[|m.queue|] == e
    ensures m'.handlers == m.handlers
  {
    m.(queue := m.queue + [e])
  }

  /** `clear`: empties the queue and keeps the handlers. */
  function Clear<H>(m: Manager<H>): (m': Manager<H>)
    ensures m'.queue == [] && m'.handlers == m.handlers
  {
    m.(queue := [])
  }

  /** `queue`: a copy of the current contents; the manager itself is not changed. */
  function Queue<H>(m: Manager<H>): seq<Event>
  {
    m.queue
  }

  /** The calls a frame makes on the manager. */
  datatype Call<H> = DispatchCall(e: Event) | ClearCall | RegisterCall(kind: EventKind, handler: H)

  function Run<H>(m: Manager<H>, calls: seq<Call<H>>): Manager<H>
  {
    if |calls| == 0 then m
    else
      var m1 := Run(m, calls[..|calls| - 1]);
      match calls[|calls| - 1]
      case DispatchCall(e) => Dispatch(m1, e)
      case ClearCall => Clear(m1)
      case RegisterCall(k, h) => Register(m1, k, h)
  }

  /** Whether any call is a clear. */
  predicate HasClear<H>(calls: seq<Call<H>>)
  {
    exists i :: 0 <= i < |calls| && calls[i].ClearCall?
  }

  /** The events dispatched by the calls, in call order. */
  function Dispatched<H>(calls: seq<Call<H>>): seq<Event>
  {
    if |calls| == 0 then []
    else Dispatched(calls[..|calls| - 1]) + (if calls[|calls| - 1].DispatchCall? then [calls[|calls| - 1].e] else [])
  }

  /**
   * After any run of calls without a clear, the queue is the earlier queue
   * followed by every dispatched event in order, whatever handlers were
   * registered meanwhile.
   */
  lemma {:induction false} QueueIsDispatchedEvents<H>(m: Manager<H>, calls: seq<Call<H>>)
    requires !HasClear(calls)
    ensures Queue(Run(m, calls)) == Queue(m) + Dispatched(calls)
  {
    if |calls| > 0 {
      var init := calls[..|calls| - 1];
      assert !HasClear(init) by {
        forall i | 0 <= i < |init| ensures !init[i].ClearCall? {
          assert init[i] == calls[i];
        }
      }
      QueueIsDispatchedEvents(m, init);
      assert !calls[|calls| - 1].ClearCall?;
    }
  }

  /** A clear followed by further calls leaves exactly the events dispatched after it. */
  lemma QueueAfterClear<H>(m: Manager<H>, before: seq<Call<H>>, after: seq<Call<H>>)
    requires !HasClear(after)
    ensures Queue(Run(m, before + [ClearCall] + after)) == Dispatched(after)
  {
    var prefix := before + [ClearCall];
    RunAppend(m, prefix, after);
    assert prefix[..|prefix| - 1] == before;
    QueueIsDispatchedEvents(Run(m, prefix), after);
  }

  lemma {:induction false} RunAppend<H>(m: Manager<H>, a: seq<Call<H>>, b: seq<Call<H>>)
    ensures Run(m, a + b) == Run(Run(m, a), b)
    decreases |b|
  {
    if |b| == 0 {
      assert a + b == a;
    } else {
      var b' := b[..|b| - 1];
      assert (a + b)[..|a + b| - 1] == a + b';
      RunAppend(m, a, b');
    }
  }
}
