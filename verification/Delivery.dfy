/**
 The delivery pipeline with persistence on: the listener task (replay, then receive, persist,
 hand off), the POST worker (take, push, remove), the channel between them, and the spool they
 share, as one state machine. A crash may come at any step and takes everything but the disk.
 */
module Delivery {
  import opened Results
  import opened EntryJson
  import opened FileSystem
  import opened WavelogClient
  import Spool
  import SpoolNumbers

  const QUEUE_CAPACITY: nat := 32

  datatype Item = Item(seqNo: nat, adif: string)

  datatype Listener =
    | Stopped
    | Replaying(rest: seq<Item>)   // the replay loop, with the entries not yet sent
    | Receiving
    | Persisting(adif: string)     // waiting for, or inside, the append
    | Handing(item: Item)          // appended, not yet offered to the channel

  datatype Worker =
    | Exited
    | Waiting
    | Pushing(item: Item)
    | Removing(item: Item)         // finally answered; waiting for, or inside, the remove

  /** What happened so far, for the statements only; texts are counted, not numbers. */
  datatype History = History(
    accepted: multiset<string>,        // appends that returned their number
    unacknowledged: multiset<string>,  // appends cut off by a crash whose entry survived it
    answered: multiset<string>,        // pushes that ended in a final answer
    removed: multiset<string>,         // entries taken off the spool by the worker
    evicted: multiset<string>,         // entries taken off the spool by the cap
    taken: seq<Item>)                  // what the worker took in this process run, in order

  datatype State = State(spool: Spool.State, listener: Listener, worker: Worker, channel: seq<Item>, hist: History)

  datatype Event =
    | Boot
    | Opened
    | ReplaySend
    | ReplayDone
    | Datagram(adif: string)                // a parsed Logged ADIF message
    | AppendBegin(receivedAt: nat)
    | AppendEnd
    | HandOff
    | Take
    | Answer(lookup: Lookup, posts: seq<QsoReply>)
    | RemoveBegin
    | RemoveEnd
    | Operate                               // a file operation of the running spool call
    | ListenerWake(observed: bool)          // the shutdown watch changed; `observed` if it means shutdown
    | WorkerWake(observed: bool)
    | ChannelClosed                         // the worker sees an empty channel without a sender
    | Crash
    | Fault

  // ------------------------------------------------------------------- steps

  function ItemOf(e: Entry): Item { Item(e.seqNo, e.adif) }

  function Items(es: seq<Entry>): (items: seq<Item>)
    ensures |items| == |es| && forall i :: 0 <= i < |es| ==> items[i] == ItemOf(es[i])
  {
    seq(|es|, i requires 0 <= i < |es| => ItemOf(es[i]))
  }

  function Adifs(es: seq<Entry>): multiset<string> {
    if es == [] then multiset{} else multiset{es[0].adif} + Adifs(es[1..])
  }

  /** What the history gains when the running call takes effect. */
  function Commit(h: History, p: Spool.Phase, acknowledged: bool): (h': History)
    requires p.Busy?
    ensures h'.taken == h.taken && h'.answered == h.answered
  {
    match p.call
    case OpenCall => h
    case AppendCall(e) =>
      var one := multiset{e.adif};
      var h1 := h.(evicted := h.evicted + (Adifs(p.before) + one - Adifs(p.mem.entries)));
      if acknowledged then h1.(accepted := h.accepted + one) else h1.(unacknowledged := h.unacknowledged + one)
    case RemoveCall(_) => h.(removed := h.removed + (Adifs(p.before) - Adifs(p.mem.entries)))
  }

  predicate Running(sp: Spool.State, call: Spool.Call) { sp.phase.Busy? && sp.phase.call == call }

  predicate RunningRemove(sp: Spool.State) { sp.phase.Busy? && sp.phase.call.RemoveCall? }

  predicate Wellformed(ev: Event) {
    ev.Answer? ==> ThreeEach(ev.lookup, ev.posts)
  }

  ghost predicate Next(s: State, ev: Event, s': State) {
    && Wellformed(ev)
    && match ev
       case Boot =>
         s.spool.phase.Down? && s' == s.(spool := Spool.BeginOpen(s.spool))
       case Opened =>
         && Spool.CanFinish(s.spool) && s.spool.phase.call.OpenCall?
         && s' == s.(spool := Spool.Finish(s.spool), listener := Replaying(Items(s.spool.phase.mem.entries)),
                     worker := Waiting, channel := [], hist := s.hist.(taken := []))
       case ReplaySend =>
         && s.listener.Replaying? && s.listener.rest != []
         && if s.worker.Exited? then s' == s.(listener := Stopped)
            else |s.channel| < QUEUE_CAPACITY
                 && s' == s.(listener := Replaying(s.listener.rest[1..]), channel := s.channel + [s.listener.rest[0]])
       case ReplayDone =>
         s.listener == Replaying([]) && s' == s.(listener := Receiving)
       case Datagram(adif) =>
         s.listener.Receiving? && s' == s.(listener := Persisting(adif))
       case AppendBegin(receivedAt) =>
         && s.listener.Persisting? && s.spool.phase.Ready?
         && s' == s.(spool := Spool.BeginAppend(s.spool, s.listener.adif, receivedAt))
       case AppendEnd =>
         && Spool.CanFinish(s.spool) && s.spool.phase.call.AppendCall? && s.listener.Persisting?
         && s' == s.(spool := Spool.Finish(s.spool), listener := Handing(ItemOf(s.spool.phase.call.entry)),
                     hist := Commit(s.hist, s.spool.phase, true))
       case HandOff =>
         && s.listener.Handing?
         && s' == if s.worker.Exited? then s.(listener := Stopped)
                  else if |s.channel| < QUEUE_CAPACITY then
                    s.(listener := Receiving, channel := s.channel + [s.listener.item])
                  else s.(listener := Receiving)
       case Take =>
         && s.worker.Waiting? && s.channel != []
         && s' == s.(worker := Pushing(s.channel[0]), channel := s.channel[1..],
                     hist := s.hist.(taken := s.hist.taken + [s.channel[0]]))
       case Answer(lookup, posts) =>
         && s.worker.Pushing?
         && s' == if IsFinal(PushOne(lookup, posts)) then
                    s.(worker := Removing(s.worker.item),
                       hist := s.hist.(answered := s.hist.answered + multiset{s.worker.item.adif}))
                  else s.(worker := Waiting)
       case RemoveBegin =>
         && s.worker.Removing? && s.spool.phase.Ready?
         && s' == s.(spool := Spool.BeginRemove(s.spool, s.worker.item.seqNo))
       case RemoveEnd =>
         && Spool.CanFinish(s.spool) && s.spool.phase.call.RemoveCall? && s.worker.Removing?
         && s' == s.(spool := Spool.Finish(s.spool), worker := Waiting, hist := Commit(s.hist, s.spool.phase, true))
       case Operate =>
         Spool.CanAdvance(s.spool) && s' == s.(spool := Spool.Advance(s.spool))
       case ListenerWake(observed) =>
         && (s.listener.Replaying? || s.listener.Receiving?)
         && s' == if observed then s.(listener := Stopped)
                  // The replay loop has already moved this entry into the cancelled send.
                  else if s.listener.Replaying? && s.listener.rest != [] then
                    s.(listener := Replaying(s.listener.rest[1..]))
                  else s
       case WorkerWake(observed) =>
         && (s.worker.Waiting? || s.worker.Pushing?)
         && s' == s.(worker := if observed then Exited else Waiting)
       case ChannelClosed =>
         s.worker.Waiting? && s.channel == [] && s.listener.Stopped? && !s.spool.phase.Down?
         && s' == s.(worker := Exited)
       case Crash =>
         && Spool.Crashes(s.spool, s'.spool)
         && s'.listener == Stopped && s'.worker == Exited && s'.channel == []
         && s'.hist == if s.spool.phase.Busy? && Spool.Committed(s'.spool) != Spool.Committed(s.spool)
                       then Commit(s.hist, s.spool.phase, false) else s.hist
       case Fault =>
         && Spool.CanAdvance(s.spool) && Spool.Fails(s.spool, s'.spool)
         && s' == match s.spool.phase.call
                  case OpenCall => s.(spool := s'.spool)
                  case AppendCall(_) => s.(spool := s'.spool, listener := Receiving)
                  case RemoveCall(_) => s.(spool := s'.spool, worker := Waiting)
  }

  const NO_HISTORY := History(multiset{}, multiset{}, multiset{}, multiset{}, multiset{}, [])

  const START := State(Spool.EMPTY_DISK, Stopped, Exited, [], NO_HISTORY)

  ghost predicate IsRun(states: seq<State>, events: seq<Event>) {
    && |states| == |events| + 1 && states[0] == START
    && forall i :: 0 <= i < |events| ==> Next(states[i], events[i], states[i + 1])
  }

  // ------------------------------------------------------ the spool's own run

  /** The event of the spool machine inside a pipeline event, if any. */
  function SpoolEvent(s: State, ev: Event): Option<Spool.Event> {
    match ev
    case Boot => Some(Spool.Open)
    case Opened => Some(Spool.Return)
    case AppendEnd => Some(Spool.Return)
    case RemoveEnd => Some(Spool.Return)
    case AppendBegin(receivedAt) =>
      if s.listener.Persisting? then Some(Spool.Append(s.listener.adif, receivedAt)) else None
    case RemoveBegin => if s.worker.Removing? then Some(Spool.Remove(s.worker.item.seqNo)) else None
    case Operate => Some(Spool.Operate)
    case Crash => Some(Spool.Crash)
    case Fault => Some(Spool.Fault)
    case _ => None
  }

  lemma SpoolFollows(s: State, ev: Event, s': State)
    requires Next(s, ev, s')
    ensures match SpoolEvent(s, ev)
            case None => s'.spool == s.spool
            case Some(e) => Spool.Next(s.spool, e, s'.spool)
  {
    hide Spool.Crashes, Spool.Fails, Spool.BeginOpen, Spool.BeginAppend, Spool.BeginRemove, Commit, Items, PushOne;
  }

  /** No file error, and no append in place to an unterminated file. */
  predicate Safe(s: State, ev: Event) {
    match SpoolEvent(s, ev)
    case None => true
    case Some(e) => Spool.Safe(s.spool, e)
  }

  // -------------------------------------------------- order and identity of items

  function HandingItems(l: Listener): seq<Item> { if l.Handing? then [l.item] else [] }

  function ReplayItems(l: Listener): seq<Item> { if l.Replaying? then l.rest else [] }

  /** Everything on its way to the worker, in the order it will get there. */
  function Queue(s: State): seq<Item> { s.channel + HandingItems(s.listener) + ReplayItems(s.listener) }

  predicate HasItem(w: Worker) { w.Pushing? || w.Removing? }

  /** What the worker has taken and will take, in order. */
  function Itinerary(s: State): seq<Item> { s.hist.taken + Queue(s) }

  ghost predicate Increasing(items: seq<Item>, bound: nat) {
    && (forall i, j :: 0 <= i < j < |items| ==> items[i].seqNo < items[j].seqNo)
    && (forall i :: 0 <= i < |items| ==> items[i].seqNo < bound)
  }

  /** No item has this number or a larger one. */
  function Horizon(sp: Spool.State): nat
    requires !sp.phase.Down?
  {
    match sp.phase
    case Ready(mem) => mem.nextSeq
    case Busy(call, _, mem, _, _, _) => if call.AppendCall? then call.entry.seqNo else mem.nextSeq
  }

  /** If the spool has an entry with this number, it is this QSO. */
  ghost predicate Agrees(item: Item, es: seq<Entry>) {
    forall i :: 0 <= i < |es| && es[i].seqNo == item.seqNo ==> es[i].adif == item.adif
  }

  ghost predicate AgreesWithSpool(item: Item, sp: Spool.State) {
    match sp.phase
    case Down => true
    case Ready(mem) => Agrees(item, mem.entries)
    case Busy(_, before, mem, _, _, _) => Agrees(item, before) && Agrees(item, mem.entries)
  }

  /** Which task the running spool call belongs to, and what the call does to the list. */
  ghost predicate Wired(s: State) {
    match s.spool.phase
    case Down => s.listener.Stopped? && s.worker.Exited? && s.channel == []
    case Ready(_) => true
    case Busy(call, before, mem, _, _, _) =>
      match call
      case OpenCall => s.listener.Stopped? && s.worker.Exited? && s.channel == [] && mem.entries == before
      case AppendCall(e) =>
        && s.listener == Persisting(e.adif) && e.seqNo + 1 == mem.nextSeq
        && mem.entries == Spool.Capped(before + [e])
      case RemoveCall(seqNo) =>
        && s.worker.Removing? && s.worker.item.seqNo == seqNo
        && mem.entries == Spool.Without(before, seqNo)
  }

  /**
   A replay entry leaves the listener without being sent, and the listener goes on, exactly at a
   change of the shutdown watch that does not mean shutdown. The entry stays on the spool.
   */
  lemma ReplaySkipsIffFalseWake(s: State, ev: Event, s': State)
    requires Wired(s) && Next(s, ev, s') && s.listener.Replaying? && s.listener.rest != []
    ensures s'.listener == Replaying(s.listener.rest[1..]) && s'.channel == s.channel <==> ev == ListenerWake(false)
    ensures ev == ListenerWake(false) ==> s'.spool == s.spool
  {
    hide PushOne, Commit, Spool.Crashes, Spool.Fails, Items;
  }

  ghost predicate Ordered(s: State) {
    && |s.channel| <= QUEUE_CAPACITY
    && (!s.spool.phase.Down? && !Running(s.spool, Spool.OpenCall) ==> Increasing(Itinerary(s), Horizon(s.spool)))
    && (HasItem(s.worker) ==> s.hist.taken != [] && s.hist.taken[|s.hist.taken| - 1] == s.worker.item)
  }

  ghost predicate Matched(s: State) {
    && (forall i :: 0 <= i < |Queue(s)| ==> AgreesWithSpool(Queue(s)[i], s.spool))
    && (HasItem(s.worker) ==> AgreesWithSpool(s.worker.item, s.spool))
  }

  /** Holds in every reachable state, whatever crashes and file errors happen. */
  ghost predicate Inv(s: State) {
    SpoolNumbers.Orderly(s.spool) && Wired(s) && Ordered(s) && Matched(s)
  }

  // ------------------------------------------------------------- preservation

  lemma OrderlyIsNumbered(sp: Spool.State)
    requires SpoolNumbers.Orderly(sp) && !sp.phase.Down?
    ensures Spool.Numbered(sp.phase.mem)
  {
    hide Spool.Numbered, SpoolNumbers.FaultyCall, SpoolNumbers.FileTame, SpoolNumbers.OldTame, SpoolNumbers.AnyTame;
  }

  /** An item made from an entry agrees with every list of distinct numbers that entry is in. */
  lemma OwnEntryAgrees(es: seq<Entry>, i: nat)
    requires Spool.Ascending(es) && i < |es|
    ensures Agrees(ItemOf(es[i]), es)
  {
    forall j | 0 <= j < |es| && es[j].seqNo == es[i].seqNo
      ensures es[j].adif == es[i].adif
    {
    }
  }

  lemma SubsetAgrees(item: Item, es: seq<Entry>, fs: seq<Entry>)
    requires Agrees(item, es) && forall f <- fs :: f in es
    ensures Agrees(item, fs)
  {
    forall i | 0 <= i < |fs| && fs[i].seqNo == item.seqNo
      ensures fs[i].adif == item.adif
    {
      assert fs[i] in es;
    }
  }

  /** A number at or above the horizon is nobody's. */
  lemma FreshEntryAgrees(item: Item, es: seq<Entry>, e: Entry)
    requires Agrees(item, es) && item.seqNo < e.seqNo
    ensures Agrees(item, Spool.Capped(es + [e]))
  {
    var all := es + [e];
    assert Agrees(item, all);
    assert forall f <- Spool.Capped(all) :: f in all;
    SubsetAgrees(item, all, Spool.Capped(all));
  }

  lemma KeptEntriesAgree(item: Item, es: seq<Entry>, seqNo: nat)
    requires Agrees(item, es)
    ensures Agrees(item, Spool.Without(es, seqNo))
  {
    Spool.WithoutIs(es, seqNo);
    SubsetAgrees(item, es, Spool.Without(es, seqNo));
  }

  /** The replay handed out at start: the entries in memory, in order. */
  lemma ReplayIsInOrder(mem: Spool.Mem)
    requires Spool.Numbered(mem)
    ensures Increasing([] + Items(mem.entries), mem.nextSeq)
    ensures forall i :: 0 <= i < |mem.entries| ==> Agrees(Items(mem.entries)[i], mem.entries)
  {
    assert [] + Items(mem.entries) == Items(mem.entries);
    forall i | 0 <= i < |mem.entries|
      ensures Agrees(Items(mem.entries)[i], mem.entries)
    {
      OwnEntryAgrees(mem.entries, i);
    }
  }

  lemma OpenedKeepsInv(s: State, s': State)
    requires Inv(s) && Next(s, Opened, s')
    ensures Wired(s') && Ordered(s') && Matched(s')
  {
    hide SpoolNumbers.Orderly, Increasing, Agrees, Items, Spool.Numbered;
    var mem := s.spool.phase.mem;
    OrderlyIsNumbered(s.spool);
    ReplayIsInOrder(mem);
    assert Queue(s') == Items(mem.entries);
  }

  lemma TakeKeepsInv(s: State, s': State)
    requires Inv(s) && Next(s, Take, s')
    ensures Wired(s') && Ordered(s') && Matched(s')
  {
    hide SpoolNumbers.Orderly, AgreesWithSpool;
    assert Queue(s) == [s.channel[0]] + Queue(s');
    assert Itinerary(s') == Itinerary(s);
    assert Queue(s)[0] == s.channel[0];
    assert forall i :: 0 <= i < |Queue(s')| ==> Queue(s')[i] == Queue(s)[i + 1];
  }

  /** Steps that move items along without changing their order or the spool. */
  lemma MovingKeepsInv(s: State, ev: Event, s': State)
    requires Inv(s) && Next(s, ev, s')
    requires ev.ReplayDone? || ev.Datagram? || ev.Answer?
          || (ev.ReplaySend? && !s.worker.Exited?)
          || (ev.HandOff? && !s.worker.Exited? && |s.channel| < QUEUE_CAPACITY)
    ensures Wired(s') && Ordered(s') && Matched(s')
  {
    hide SpoolNumbers.Orderly, PushOne, AgreesWithSpool, Increasing;
    assert Queue(s') == Queue(s);
  }

  /** A shorter queue in the same order is still in order. */
  lemma DroppingKeepsOrder(taken: seq<Item>, queue: seq<Item>, queue': seq<Item>, k: nat, n: nat, bound: nat)
    requires Increasing(taken + queue, bound)
    requires k <= k + n <= |queue| && queue' == queue[..k] + queue[k + n..]
    ensures Increasing(taken + queue', bound)
  {
    var all, all' := taken + queue, taken + queue';
    assert forall i :: 0 <= i < |all'| ==> all'[i] == all[if i < |taken| + k then i else i + n];
  }

  lemma ShorterQueueKeepsInv(s: State, s': State, k: nat, n: nat)
    requires Ordered(s) && Matched(s)
    requires s'.spool == s.spool && s'.hist == s.hist && s'.channel == s.channel
    requires k + n <= |Queue(s)| && Queue(s') == Queue(s)[..k] + Queue(s)[k + n..]
    requires HasItem(s'.worker) ==> s'.worker == s.worker
    ensures Ordered(s') && Matched(s')
  {
    hide Increasing, AgreesWithSpool, Queue;
    if !s.spool.phase.Down? && !Running(s.spool, Spool.OpenCall) {
      DroppingKeepsOrder(s.hist.taken, Queue(s), Queue(s'), k, n, Horizon(s.spool));
    }
    assert forall i :: 0 <= i < |Queue(s')| ==> Queue(s')[i] == Queue(s)[if i < k then i else i + n];
  }

  /** Steps in which the listener or the worker lets go of items. */
  predicate Drops(s: State, ev: Event) {
    || ev.ListenerWake? || ev.WorkerWake? || ev.ChannelClosed?
    || (ev.ReplaySend? && s.worker.Exited?)
    || (ev.HandOff? && (s.worker.Exited? || |s.channel| >= QUEUE_CAPACITY))
  }

  /** The listener stops, drops the item in hand, or skips one of the replay. */
  predicate LetsGo(l: Listener, l': Listener) {
    || l' == l
    || ((l.Handing? || l.Replaying? || l.Receiving?) && (l'.Stopped? || l'.Receiving?))
    || (l.Replaying? && l.rest != [] && l' == Replaying(l.rest[1..]))
  }

  predicate GivesIn(w: Worker, w': Worker) { w' == w || ((w.Waiting? || w.Pushing?) && !HasItem(w')) }

  lemma DroppingStep(s: State, ev: Event, s': State)
    requires Next(s, ev, s') && Drops(s, ev)
    ensures s' == s.(listener := s'.listener, worker := s'.worker)
    ensures LetsGo(s.listener, s'.listener) && GivesIn(s.worker, s'.worker)
  {
    hide PushOne, Commit, Items, Spool.BeginOpen, Spool.BeginAppend, Spool.BeginRemove, Spool.Advance, Spool.Finish;
    hide Spool.Fails, Spool.Crashes;
  }

  lemma DroppingKeepsWired(s: State, s': State)
    requires Wired(s) && s' == s.(listener := s'.listener, worker := s'.worker)
    requires LetsGo(s.listener, s'.listener) && GivesIn(s.worker, s'.worker)
    ensures Wired(s')
  {
    hide Spool.Capped, Spool.Without;
  }

  function OwnItems(l: Listener): seq<Item> { HandingItems(l) + ReplayItems(l) }

  /** Only the listener's own items can go, from the front. */
  lemma OwnItemsShrink(l: Listener, l': Listener)
    requires LetsGo(l, l')
    ensures |OwnItems(l')| <= |OwnItems(l)| && OwnItems(l') == OwnItems(l)[|OwnItems(l)| - |OwnItems(l')|..]
  {
  }

  lemma QueueShrinks(s: State, s': State) returns (n: nat)
    requires s'.channel == s.channel && LetsGo(s.listener, s'.listener)
    ensures var k := |s.channel|;
            k + n <= |Queue(s)| && Queue(s') == Queue(s)[..k] + Queue(s)[k + n..]
  {
    hide Queue, LetsGo, OwnItems;
    var all, left := OwnItems(s.listener), OwnItems(s'.listener);
    QueueIs(s);
    QueueIs(s');
    OwnItemsShrink(s.listener, s'.listener);
    TailBehind(s.channel, all, left);
    n := |all| - |left|;
  }

  lemma QueueIs(s: State)
    ensures Queue(s) == s.channel + OwnItems(s.listener)
  {
    hide HandingItems, ReplayItems;
  }

  lemma TailBehind(front: seq<Item>, all: seq<Item>, tail: seq<Item>)
    requires |tail| <= |all| && tail == all[|all| - |tail|..]
    ensures front + tail == (front + all)[..|front|] + (front + all)[|front| + (|all| - |tail|)..]
  {
  }

  lemma GivenIn(w: Worker, w': Worker)
    requires GivesIn(w, w')
    ensures HasItem(w') ==> w' == w
  {
  }

  lemma DroppingKeepsInv(s: State, ev: Event, s': State)
    requires Inv(s) && Next(s, ev, s') && Drops(s, ev)
    ensures Wired(s') && Ordered(s') && Matched(s')
  {
    hide SpoolNumbers.Orderly, Ordered, Matched, Next, Drops, Wired, Queue, LetsGo, GivesIn;
    DroppingStep(s, ev, s');
    GivenIn(s.worker, s'.worker);
    DroppingKeepsWired(s, s');
    var n := QueueShrinks(s, s');
    ShorterQueueKeepsInv(s, s', |s.channel|, n);
  }

  lemma AppendBeginKeepsInv(s: State, receivedAt: nat, s': State)
    requires Inv(s) && Next(s, AppendBegin(receivedAt), s')
    ensures Wired(s') && Ordered(s') && Matched(s')
  {
    hide SpoolNumbers.Orderly, Agrees, Spool.AppendPlan, Spool.Capped;
    var mem := s.spool.phase.mem;
    var e := Entry(mem.nextSeq, s.listener.adif, receivedAt);
    assert Queue(s') == Queue(s) && Itinerary(s') == Itinerary(s);
    forall i | 0 <= i < |Queue(s)|
      ensures AgreesWithSpool(Queue(s)[i], s'.spool)
    {
      assert Itinerary(s)[|s.hist.taken| + i] == Queue(s)[i];
      FreshEntryAgrees(Queue(s)[i], mem.entries, e);
    }
    if HasItem(s.worker) {
      assert Itinerary(s)[|s.hist.taken| - 1] == s.worker.item;
      FreshEntryAgrees(s.worker.item, mem.entries, e);
    }
  }

  lemma NewItemKeepsOrder(items: seq<Item>, e: Entry)
    requires Increasing(items, e.seqNo)
    ensures Increasing(items + [ItemOf(e)], e.seqNo + 1)
  {
  }

  lemma NewItemAgrees(p: Spool.Phase)
    requires p.Busy? && p.call.AppendCall? && Spool.Numbered(p.mem)
    requires p.mem.entries == Spool.Capped(p.before + [p.call.entry])
    ensures Agrees(ItemOf(p.call.entry), p.mem.entries)
  {
    hide Agrees;
    var es := p.mem.entries;
    assert es[|es| - 1] == p.call.entry;
    OwnEntryAgrees(es, |es| - 1);
  }

  lemma AppendEndKeepsInv(s: State, s': State)
    requires Inv(s) && Next(s, AppendEnd, s')
    ensures Wired(s') && Ordered(s') && Matched(s')
  {
    hide SpoolNumbers.Orderly, Commit, Spool.Without, Spool.Capped, Spool.Numbered, Increasing, Agrees;
    var e := s.spool.phase.call.entry;
    OrderlyIsNumbered(s.spool);
    NewItemAgrees(s.spool.phase);
    NewItemKeepsOrder(Itinerary(s), e);
    assert Queue(s') == Queue(s) + [ItemOf(e)];
    assert Itinerary(s') == Itinerary(s) + [ItemOf(e)];
  }

  lemma RemoveBeginKeepsInv(s: State, s': State)
    requires Inv(s) && Next(s, RemoveBegin, s')
    ensures Wired(s') && Ordered(s') && Matched(s')
  {
    hide SpoolNumbers.Orderly, Agrees, Spool.RemovePlan, Increasing;
    var mem := s.spool.phase.mem;
    assert Queue(s') == Queue(s) && Itinerary(s') == Itinerary(s);
    forall i | 0 <= i < |Queue(s)|
      ensures AgreesWithSpool(Queue(s)[i], s'.spool)
    {
      KeptEntriesAgree(Queue(s)[i], mem.entries, s.worker.item.seqNo);
    }
    KeptEntriesAgree(s.worker.item, mem.entries, s.worker.item.seqNo);
  }

  /** A call that returns, or gives up, leaves a list that was already accounted for. */
  lemma SettlingKeepsInv(s: State, ev: Event, s': State)
    requires Inv(s) && Next(s, ev, s') && (ev.RemoveEnd? || ev.Operate? || ev.Fault?)
    ensures Wired(s') && Ordered(s') && Matched(s')
  {
    hide SpoolNumbers.Orderly, Agrees, Commit, FailedOp, Apply, Spool.Capped, Spool.Without;
    assert Queue(s') == Queue(s);
    assert Itinerary(s') == Itinerary(s);
    if ev.Fault? && s.spool.phase.call.AppendCall? {
      assert Increasing(Itinerary(s), s.spool.phase.call.entry.seqNo);
      assert Increasing(Itinerary(s), s.spool.phase.mem.nextSeq);
    }
  }

  lemma BootKeepsInv(s: State, s': State)
    requires Inv(s) && Next(s, Boot, s')
    ensures Wired(s') && Ordered(s') && Matched(s')
  {
    hide SpoolNumbers.Orderly, Agrees, Spool.OpenPlan, Spool.Recover, Spool.NextSeq;
  }

  lemma CrashKeepsInv(s: State, s': State)
    requires Inv(s) && Next(s, Crash, s')
    ensures Wired(s') && Ordered(s') && Matched(s')
  {
    hide SpoolNumbers.Orderly, Commit, Spool.Committed, Crashed;
  }

  lemma StepKeepsInv(s: State, ev: Event, s': State)
    requires Inv(s) && Next(s, ev, s')
    ensures Inv(s')
  {
    SpoolStaysOrderly(s, ev, s');
    hide SpoolNumbers.Orderly, Next, Wired, Ordered, Matched;
    match ev {
      case Opened => OpenedKeepsInv(s, s');
      case AppendBegin(receivedAt) => AppendBeginKeepsInv(s, receivedAt, s');
      case AppendEnd => AppendEndKeepsInv(s, s');
      case RemoveBegin => RemoveBeginKeepsInv(s, s');
      case Crash => CrashKeepsInv(s, s');
      case ListenerWake(_) => DroppingKeepsInv(s, ev, s');
      case WorkerWake(_) => DroppingKeepsInv(s, ev, s');
      case ChannelClosed => DroppingKeepsInv(s, ev, s');
      case ReplaySend =>
        if s.worker.Exited? { DroppingKeepsInv(s, ev, s'); } else { MovingKeepsInv(s, ev, s'); }
      case HandOff =>
        if s.worker.Exited? || |s.channel| >= QUEUE_CAPACITY { DroppingKeepsInv(s, ev, s'); }
        else { MovingKeepsInv(s, ev, s'); }
      case RemoveEnd => SettlingKeepsInv(s, ev, s');
      case Operate => SettlingKeepsInv(s, ev, s');
      case Fault => SettlingKeepsInv(s, ev, s');
      case Boot => BootKeepsInv(s, s');
      case Take => TakeKeepsInv(s, s');
      case _ => MovingKeepsInv(s, ev, s');
    }
  }

  lemma SpoolStaysOrderly(s: State, ev: Event, s': State)
    requires SpoolNumbers.Orderly(s.spool) && Next(s, ev, s')
    ensures SpoolNumbers.Orderly(s'.spool)
  {
    hide SpoolNumbers.Orderly, Next, Spool.Next;
    SpoolFollows(s, ev, s');
    if SpoolEvent(s, ev).Some? {
      SpoolNumbers.StepIsOrderly(s.spool, SpoolEvent(s, ev).value, s'.spool);
    }
  }

  lemma StartIsInv()
    ensures Inv(START)
  {
    assert SpoolNumbers.FileTame(None, 0);
  }

  lemma {:induction false} RunKeepsInv(states: seq<State>, events: seq<Event>, i: nat)
    requires IsRun(states, events) && i < |states|
    ensures Inv(states[i])
  {
    hide Inv, Next;
    if i == 0 {
      StartIsInv();
    } else {
      RunKeepsInv(states, events, i - 1);
      assert Next(states[i - 1], events[i - 1], states[i - 1 + 1]);
      StepKeepsInv(states[i - 1], events[i - 1], states[i]);
    }
  }
}
