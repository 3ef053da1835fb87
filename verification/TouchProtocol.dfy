/** The Linux multi-touch protocol, type B: input events, and the slots a reader keeps for them
    (Documentation/input/multi-touch-protocol.rst of the Linux kernel). */
module TouchProtocol {

  datatype Event =
    | Slot(n: int) | TrackingId(id: int) | PositionX(v: int) | PositionY(v: int)
    | Pressure(v: int) | TouchMajor(v: int) | BtnTouch(v: int) | SynReport

  /** What a slot holds. It is free when its tracking id is -1. */
  datatype Contact = Contact(id: int, x: int, y: int, pressure: int, major: int)

  datatype Reader = Reader(current: int, slots: map<int, Contact>, touch: int)

  function At(k: Reader, n: int): Contact { if n in k.slots then k.slots[n] else Contact(-1, 0, 0, 0, 0) }

  function Set(k: Reader, c: Contact): Reader { k.(slots := k.slots[k.current := c]) }

  function Apply(k: Reader, e: Event): Reader {
    var c := At(k, k.current);
    match e
    case Slot(n) => k.(current := n)
    case TrackingId(id) => Set(k, c.(id := id))
    case PositionX(v) => Set(k, c.(x := v))
    case PositionY(v) => Set(k, c.(y := v))
    case Pressure(v) => Set(k, c.(pressure := v))
    case TouchMajor(v) => Set(k, c.(major := v))
    case BtnTouch(v) => k.(touch := v)
    case SynReport => k
  }

  function Read(k: Reader, es: seq<Event>): Reader
    decreases |es|
  {
    if es == [] then k else Read(Apply(k, es[0]), es[1..])
  }

  /** What the reader sees at each report. */
  function Frames(k: Reader, es: seq<Event>): seq<Reader>
    decreases |es|
  {
    if es == [] then []
    else (if es[0].SynReport? then [k] else []) + Frames(Apply(k, es[0]), es[1..])
  }

  lemma {:induction false} ReadAppend(k: Reader, a: seq<Event>, b: seq<Event>)
    ensures Read(k, a + b) == Read(Read(k, a), b)
    ensures Frames(k, a + b) == Frames(k, a) + Frames(Read(k, a), b)
    decreases |a|
  {
    hide Apply;
    if a == [] {
      assert a + b == b;
    } else {
      assert (a + b)[1..] == a[1..] + b;
      ReadAppend(Apply(k, a[0]), a[1..], b);
    }
  }

  predicate NoReport(es: seq<Event>) { forall i :: 0 <= i < |es| ==> !es[i].SynReport? }

  lemma {:induction false} NoFrames(k: Reader, es: seq<Event>)
    requires NoReport(es)
    ensures Frames(k, es) == []
    decreases |es|
  {
    hide Apply;
    if es != [] { NoFrames(Apply(k, es[0]), es[1..]); }
  }

  /** Events followed by a report show their result once. */
  lemma Reported(k: Reader, es: seq<Event>)
    requires NoReport(es)
    ensures Read(k, es + [SynReport]) == Read(k, es) && Frames(k, es + [SynReport]) == [Read(k, es)]
  {
    ReadAppend(k, es, [SynReport]);
    NoFrames(k, es);
    assert [SynReport][1..] == [];
  }
}
