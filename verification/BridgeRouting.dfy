/** Whose endpoint it is: when an added Matter endpoint is routed to the node whose descriptor asked for it. */
module BridgeRouting {
  import opened Bytes
  import opened DeviceKinds
  import opened EndpointSearch
  import opened Options
  import opened SavedNodes
  import opened Bridge
  import opened BridgeRuns

  /** A poll would add an endpoint for the device in the mailbox, and the SDK would accept it. */
  predicate Addable(s: State) {
    && s.mail.AddDevice? && LiveKind(s.mail.bitmap).Some? && FreeIndex(s.devices) < DYNAMIC_ENDPOINT_COUNT
    && AllocatedId(StartId(s), s.first, s.used) !in s.refused
  }

  /**
   * An endpoint added for a device goes to the node announced last if that node is still without one; otherwise the
   * Matter endpoint exists and no command for it finds a node.
   */
  lemma {:induction false} AddedEndpointIsRoutedExactlyWhen(s: State, kind: Kind)
    requires Inv(s) && FreeIndex(s.devices) < DYNAMIC_ENDPOINT_COUNT
    requires AllocatedId(StartId(s), s.first, s.used) !in s.refused
    ensures var t := Added(s, kind);
            && t.current !in s.used && t.current in t.used && t.current != 0
            && t.devices[FreeIndex(s.devices)] == Device(kind, t.current, true)
            && FindMatched(t.joined, t.current, 0) ==
               if s.joined[s.idx].nodeType != 0 && s.joined[s.idx].ep == 0 then s.idx else NOT_FOUND
  {
    var free := SomeIdIsFree(s);
    AllocatedIdIsUnused(StartId(s), s.first, s.used, free);
    var t := Added(s, kind);
    hide AllocatedId, StartId, Stored;
    forall j | 0 <= j < DEV_NUM
      ensures s.joined[j].ep != t.current
    {
      assert NodeOk(s, s.joined[j]);
    }
    FindMatchedFinds(t.joined, t.current, 0);
    if s.joined[s.idx].nodeType != 0 && s.joined[s.idx].ep == 0 {
      assert t.joined[s.idx].ep == t.current;
    }
  }

  /** A poll routes the endpoint it adds to node `from` if and only if that is the last announced node and waits for one. */
  lemma {:induction false} PolledEndpointReaches(s: State, from: nat)
    requires Inv(s) && Addable(s) && from < DEV_NUM
    ensures var t := Polled(s);
            && t.current !in s.used && t.current in t.used && t.current != 0
            && t.devices[FreeIndex(s.devices)] == Device(LiveKind(s.mail.bitmap).value, t.current, true)
            && (FindMatched(t.joined, t.current, 0) == from <==>
                s.idx == from && s.joined[from].nodeType != 0 && s.joined[from].ep == 0)
  {
    AddedEndpointIsRoutedExactlyWhen(s, LiveKind(s.mail.bitmap).value);
    hide Added;
  }

  /** The place in the run of the descriptor whose device is in the mailbox. */
  function Poster(es: seq<Event>): (k: Option<nat>)
    ensures k.Some? ==> k.value < |es| && es[k.value].Describe?
  {
    if |es| == 0 then None
    else
      match es[|es| - 1]
      case Describe(_, _) => Some(|es| - 1)
      case Announce(_, _) => Poster(es[..|es| - 1])
      case _ => None
  }

  lemma {:induction false} PosterPosted(s: State, es: seq<Event>)
    requires Inv(s) && !s.mail.AddDevice?
    ensures After(s, es).mail.AddDevice? <==> Poster(es).Some?
    ensures Poster(es).Some? ==> After(s, es).mail == AddDevice(BitmapOf(Filtered(es[Poster(es).value].clusters)))
  {
    if |es| > 0 {
      PosterPosted(s, es[..|es| - 1]);
      var p := After(s, es[..|es| - 1]);
      hide Added, Filtered, BitmapOf, RestoredFrom;
      match es[|es| - 1]
      case Boot => BootHoldsSavedRows(p); hide Booted;
      case _ =>
    }
  }

  /**
   * Over every run: the endpoint that a poll adds is of the kind that the descriptor behind it described, and commands for
   * it go to the node that sent the descriptor if and only if that node is still the last announced one, joined and
   * without an endpoint.
   */
  lemma {:induction false} DescriberIsRoutedExactlyWhen(s: State, es: seq<Event>)
    requires Inv(s) && !s.mail.AddDevice? && Poster(es).Some? && Addable(After(s, es))
    requires es[Poster(es).value].from < DEV_NUM
    ensures var k, p, t := Poster(es).value, After(s, es), After(s, es + [Poll]);
            var from := es[k].from;
            && Some(t.devices[FreeIndex(p.devices)].kind) == LiveKind(BitmapOf(Filtered(es[k].clusters)))
            && t.devices[FreeIndex(p.devices)].endpoint == t.current && t.current !in p.used
            && (FindMatched(t.joined, t.current, 0) == from <==>
                p.idx == from && p.joined[from].nodeType != 0 && p.joined[from].ep == 0)
  {
    hide *;
    PosterPosted(s, es);
    AfterSnoc(s, es, Poll);
    var k := Poster(es).value;
    PolledForDescriber(After(s, es), BitmapOf(Filtered(es[k].clusters)), es[k].from);
  }

  /** The step of the poll, for a descriptor with bitmap `b` behind the message. */
  lemma {:induction false} PolledForDescriber(p: State, b: Bitmap, from: nat)
    requires Inv(p) && Addable(p) && p.mail == AddDevice(b) && from < DEV_NUM
    ensures var t := Next(p, Poll);
            && |t.devices| == DYNAMIC_ENDPOINT_COUNT && FreeIndex(p.devices) < DYNAMIC_ENDPOINT_COUNT
            && t.devices[FreeIndex(p.devices)].Device? && |t.joined| == DEV_NUM == |p.joined|
            && Some(t.devices[FreeIndex(p.devices)].kind) == LiveKind(b)
            && t.devices[FreeIndex(p.devices)].endpoint == t.current && t.current !in p.used
            && (FindMatched(t.joined, t.current, 0) == from <==>
                p.idx == from && p.joined[from].nodeType != 0 && p.joined[from].ep == 0)
  {
    StepKeeps(p, Poll);
    InvIsShaped(p);
    InvIsShaped(Next(p, Poll));
    hide Polled, FindMatched, Inv;
    PolledEndpointReaches(p, from);
  }

  lemma {:induction false} AfterSnoc(s: State, es: seq<Event>, e: Event)
    requires Inv(s)
    ensures After(s, es + [e]) == Next(After(s, es), e)
  {
    assert (es + [e])[..|es + [e]| - 1] == es;
  }

  /**
   * A descriptor that is polled at once gives the endpoint and its type code to the node that sent it if and only if that
   * is the last announced node, without an endpoint, and has a type then.
   */
  lemma {:induction false} DescriptorReachesItsNodeExactlyWhen(s: State, from: nat, clusters: seq<u16>)
    requires Inv(s) && from < DEV_NUM && Addable(Described(s, clusters))
    ensures var t, code := Polled(Described(s, clusters)), TypeOf(Filtered(clusters), s.joined[from].nodeType);
            (FindMatched(t.joined, t.current, 0) == from && t.joined[from].nodeType == code)
            <==> s.idx == from && code != 0 && s.joined[from].ep == 0
  {
    DescribeKeeps(s, clusters);
    hide Filtered, BitmapOf, TypeOf, AllocatedId, StartId, Stored, Inv, FindMatched;
    PolledEndpointReaches(Described(s, clusters), from);
  }

  /** An endpoint in use that no node has is never given to a node. */
  lemma {:induction false} UnroutedStaysStep(s: State, e: Event, ep: u16)
    requires Inv(s) && !e.Boot? && ep != 0 && ep in s.used && !Routed(s, ep)
    ensures ep in Next(s, e).used && !Routed(Next(s, e), ep)
  {
    hide AllocatedId, StartId, Stored, Filtered, BitmapOf, TypeOf;
    if e.Poll? && s.mail.AddDevice? && LiveKind(s.mail.bitmap).Some? && FreeIndex(s.devices) < DYNAMIC_ENDPOINT_COUNT {
      var free := SomeIdIsFree(s);
      AllocatedIdIsUnused(StartId(s), s.first, s.used, free);
    }
  }

  lemma {:induction false} UnroutedStays(s: State, es: seq<Event>, ep: u16)
    requires Inv(s) && (forall k :: 0 <= k < |es| ==> !es[k].Boot?) && ep != 0 && ep in s.used && !Routed(s, ep)
    ensures ep in After(s, es).used && !Routed(After(s, es), ep)
  {
    if |es| > 0 {
      UnroutedStays(s, es[..|es| - 1], ep);
      UnroutedStaysStep(After(s, es[..|es| - 1]), es[|es| - 1], ep);
      hide Next;
    }
  }

  /** Event `k` is a descriptor of the last announced node, and the monitor polls before anything else happens. */
  predicate OrderlyAt(s: State, es: seq<Event>, k: nat)
    requires Inv(s) && k < |es| && es[k].Describe?
  {
    es[k].from == After(s, es[..k]).idx && (k + 1 < |es| ==> es[k + 1].Poll?)
  }

  lemma {:induction false} AfterNone(s: State)
    requires Inv(s)
    ensures After(s, []) == s
  {
    hide Inv;
  }

  lemma {:induction false} AfterConcat(s: State, a: seq<Event>, b: seq<Event>)
    requires Inv(s)
    ensures After(s, a + b) == After(After(s, a), b)
    decreases |b|
  {
    hide *;
    if b == [] {
      assert a + b == a;
      AfterNone(After(s, a));
    } else {
      var front, e := b[..|b| - 1], b[|b| - 1];
      AfterConcat(s, a, front);
      AfterSnoc(s, a + front, e);
      AfterSnoc(After(s, a), front, e);
      assert b == front + [e] && a + b == a + front + [e];
    }
  }

  /**
   * An orderly join is routed, however the others of the run went: when a descriptor comes from the last announced node
   * and is polled before the next event, then at any moment until the next restart commands for the endpoint that was
   * added go to the node it was described for, under that node's addresses, if and only if the node had a type and no
   * endpoint then.
   */
  lemma {:induction false} OrderlyJoinIsRouted(s: State, es: seq<Event>, k: nat)
    requires Inv(s) && k + 1 < |es| && es[k].Describe? && OrderlyAt(s, es, k)
    requires forall j :: k < j < |es| ==> !es[j].Boot?
    requires Addable(Described(After(s, es[..k]), es[k].clusters))
    ensures var b, t, r := After(s, es[..k]), After(s, es[..k + 2]), After(s, es);
            var from := es[k].from;
            && from < DEV_NUM
            && (FindMatched(r.joined, t.current, 0) == from <==>
                TypeOf(Filtered(es[k].clusters), b.joined[from].nodeType) != 0 && b.joined[from].ep == 0)
            && (FindMatched(r.joined, t.current, 0) == from ==>
                r.joined[from].shortaddr == b.joined[from].shortaddr && r.joined[from].mac == b.joined[from].mac)
  {
    assert es[k + 1].Poll? && es[k].from == After(s, es[..k]).idx;
    hide OrderlyAt, Described, TypeOf, Filtered, FindMatched, Inv, After, Next, Addable;
    RunSplits(s, es, k);
    PolledAtOnceIsRouted(After(s, es[..k]), es[k].clusters, es[k + 2..]);
  }

  /** The same from the state in which the descriptor comes, with the rest of the run behind the poll. */
  lemma {:induction false} PolledAtOnceIsRouted(b: State, clusters: seq<u16>, rest: seq<Event>)
    requires Inv(b) && Addable(Described(b, clusters)) && forall k :: 0 <= k < |rest| ==> !rest[k].Boot?
    ensures Inv(Described(b, clusters)) && Inv(Next(Described(b, clusters), Poll)) && b.idx < DEV_NUM == |b.joined|
    ensures var t, from := Next(Described(b, clusters), Poll), b.idx;
            var r := After(t, rest);
            && |r.joined| == DEV_NUM
            && (FindMatched(r.joined, t.current, 0) == from <==>
                TypeOf(Filtered(clusters), b.joined[from].nodeType) != 0 && b.joined[from].ep == 0)
            && (FindMatched(r.joined, t.current, 0) == from ==>
                r.joined[from].shortaddr == b.joined[from].shortaddr && r.joined[from].mac == b.joined[from].mac)
  {
    var d, from := Described(b, clusters), b.idx;
    DescribeKeeps(b, clusters);
    StepKeeps(d, Poll);
    DescribedRetypes(b, clusters);
    InvIsShaped(After(Next(d, Poll), rest));
    hide Described, Filtered, BitmapOf, TypeOf, FindMatched, Inv, After, Addable, Polled;
    PolledEndpointReaches(d, from);
    PolledKeepsAddress(d, from);
    RoutedFromThere(Next(d, Poll), rest, Polled(d).current, from);
  }

  lemma {:induction false} DescribedRetypes(s: State, clusters: seq<u16>)
    requires Inv(s)
    ensures var n := Described(s, clusters).joined;
            |n| == DEV_NUM && s.idx < DEV_NUM
            && n[s.idx] == s.joined[s.idx].(nodeType := TypeOf(Filtered(clusters), s.joined[s.idx].nodeType))
  {
    hide Filtered, BitmapOf, TypeOf;
  }

  /** The run up to a descriptor, the poll after it, and the rest. */
  lemma {:induction false} RunSplits(s: State, es: seq<Event>, k: nat)
    requires Inv(s) && k + 1 < |es| && es[k].Describe? && es[k + 1].Poll?
    ensures var b, t := After(s, es[..k]), After(s, es[..k + 2]);
            Shaped(b) && After(s, es[..k + 1]) == Described(b, es[k].clusters)
            && t == Next(After(s, es[..k + 1]), Poll) && After(s, es) == After(t, es[k + 2..])
  {
    hide Described, Polled, Inv;
    assert es[..k + 1] == es[..k] + [es[k]] && es[..k + 2] == es[..k + 1] + [Poll];
    AfterSnoc(s, es[..k], es[k]);
    AfterSnoc(s, es[..k + 1], Poll);
    assert es == es[..k + 2] + es[k + 2..];
    AfterConcat(s, es[..k + 2], es[k + 2..]);
    InvIsShaped(After(s, es[..k]));
  }

  lemma {:induction false} InvIsShaped(s: State)
    requires Inv(s)
    ensures Shaped(s)
  {
  }

  lemma {:induction false} PolledKeepsAddress(s: State, from: nat)
    requires Inv(s) && s.mail.AddDevice? && from < DEV_NUM
    ensures var n := Polled(s).joined;
            |n| == DEV_NUM && n[from].shortaddr == s.joined[from].shortaddr && n[from].mac == s.joined[from].mac
  {
    hide AllocatedId, StartId, Stored;
  }

  /** Where an endpoint in use is routed, or not, does not change until the next restart. */
  lemma {:induction false} RoutedFromThere(t: State, rest: seq<Event>, ep: u16, from: nat)
    requires Inv(t) && (forall k :: 0 <= k < |rest| ==> !rest[k].Boot?) && ep != 0 && ep in t.used && from < DEV_NUM
    ensures FindMatched(After(t, rest).joined, ep, 0) == from <==> FindMatched(t.joined, ep, 0) == from
    ensures FindMatched(t.joined, ep, 0) == from ==> SameTarget(After(t, rest).joined[from], t.joined[from])
  {
    var r := After(t, rest);
    FindMatchedFinds(t.joined, ep, 0);
    FindMatchedFinds(r.joined, ep, 0);
    var i := FindMatched(t.joined, ep, 0);
    if i == NOT_FOUND {
      forall j | 0 <= j < DEV_NUM ensures t.joined[j].ep != ep {
        assert NodeOk(t, t.joined[j]);
      }
      UnroutedStays(t, rest, ep);
    } else {
      GivenEndpointStays(t, rest, i);
    }
  }

  /**
   * Two nodes that join together: the descriptor of the first gives its type, and the endpoint added for it, to the second;
   * commands for the endpoint go there, and the first node has none.
   */
  lemma {:induction false} InterleavedJoinsMisroute(s: State, a: u16, macA: nat, b: u16, macB: nat, clusters: seq<u16>)
    requires Inv(s) && FreeSlot(s.joined) + 1 < DEV_NUM
    requires FreeSlot(s.joined[FreeSlot(s.joined) := Node(1, 0, a, macA)]) == FreeSlot(s.joined) + 1
    requires Addable(Described(Announced(Announced(s, a, macA), b, macB), clusters))
    ensures var i := FreeSlot(s.joined);
            var t := After(s, [Announce(a, macA), Announce(b, macB), Describe(i, clusters), Poll]);
            && t.joined[i] == Node(1, 0, a, macA)
            && FindMatched(t.joined, t.current, 0) == i + 1
            && t.joined[i + 1] == Node(TypeOf(Filtered(clusters), 1), t.current, b, macB)
  {
    var i := FreeSlot(s.joined);
    var p := Announced(Announced(s, a, macA), b, macB);
    var d := Described(p, clusters);
    AnnounceKeeps(s, a, macA);
    AnnounceKeeps(Announced(s, a, macA), b, macB);
    DescribeKeeps(p, clusters);
    TypeOfStaysKnown(Filtered(clusters), 1);
    PolledEndpointReaches(d, i + 1);
    PolledOthers(d, i);
    FourEvents(s, Announce(a, macA), Announce(b, macB), Describe(i, clusters), Poll);
    hide Polled, Filtered, BitmapOf, TypeOf, AllocatedId, StartId, Stored, FindMatched, After, Addable, Inv;
  }

  lemma {:induction false} FourEvents(s: State, a: Event, b: Event, c: Event, d: Event)
    requires Inv(s) && Inv(Next(s, a)) && Inv(Next(Next(s, a), b)) && Inv(Next(Next(Next(s, a), b), c))
    ensures After(s, [a, b, c, d]) == Next(Next(Next(Next(s, a), b), c), d)
  {
    hide Next, Inv;
    AfterSnoc(s, [], a);
    AfterSnoc(s, [a], b);
    AfterSnoc(s, [a, b], c);
    AfterSnoc(s, [a, b, c], d);
    assert [] + [a] == [a] && [a] + [b] == [a, b] && [a, b] + [c] == [a, b, c] && [a, b, c] + [d] == [a, b, c, d];
  }

  /** A poll changes no joined node but the last announced one, and of that only the endpoint. */
  lemma {:induction false} PolledOthers(s: State, i: nat)
    requires Inv(s) && Addable(s) && i < DEV_NUM && i != s.idx
    ensures var n := Polled(s).joined;
            |n| == DEV_NUM && n[i] == s.joined[i]
            && n[s.idx] == if s.joined[s.idx].nodeType != 0 && s.joined[s.idx].ep == 0
                           then s.joined[s.idx].(ep := Polled(s).current) else s.joined[s.idx]
  {
    AddedEndpointIsRoutedExactlyWhen(s, LiveKind(s.mail.bitmap).value);
    hide AllocatedId, StartId, Stored;
  }
}
