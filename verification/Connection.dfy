/** `jsonrpcConn` (internal/lsp/jsonrpc.go): many requesters, their timeouts and one reader share a
    table of pending channels. Every critical section and every channel operation is one atomic step;
    a run is any interleaving of steps. Taking a channel out of the table and sending on it are two
    steps, as the reader sends only after it has released the lock. */
module Connection {
  import opened Collections
  import opened Options

  /** The parts of a decoded message that decide where it goes. */
  datatype Message = Message(id: Option<int>, procedure: string, payload: string)

  /** A channel made with capacity one; `sends` counts the sends it has ever seen. */
  datatype Channel = Channel(buffer: seq<Message>, closed: bool, sends: nat)

  const CAPACITY := 1
  const FRESH := Channel([], false, 0)

  /** The fields of the connection. Each call of `request` makes one channel, named after the call. */
  datatype Table = Table(nextID: nat, pending: map<int, nat>, channels: map<nat, Channel>)

  function Numbered(t: Table): Table { t.(nextID := t.nextID + 1) }

  function Registered(t: Table, id: int, call: nat): Table {
    t.(pending := t.pending[id := call], channels := t.channels[call := FRESH])
  }

  function Without(t: Table, id: int): Table { t.(pending := t.pending - {id}) }

  function Sent(t: Table, call: nat, msg: Message): Table
    requires call in t.channels
  {
    var ch := t.channels[call];
    t.(channels := t.channels[call := Channel(ch.buffer + [msg], ch.closed, ch.sends + 1)])
  }

  function Received(t: Table, call: nat): Table
    requires call in t.channels && t.channels[call].buffer != []
  {
    var ch := t.channels[call];
    t.(channels := t.channels[call := ch.(buffer := ch.buffer[1..])])
  }

  /** Every pending channel closed, the table empty. */
  function AllClosed(t: Table): Table {
    Table(t.nextID, map[], map call | call in t.channels ::
      if call in t.pending.Values then t.channels[call].(closed := true) else t.channels[call])
  }

  /** Go panics on a second close and on a send to a closed channel; a send to a full one blocks. */
  predicate CanClosePending(t: Table) {
    && (forall id <- t.pending :: t.pending[id] in t.channels && !t.channels[t.pending[id]].closed)
    && (forall id <- t.pending, id' <- t.pending | t.pending[id] == t.pending[id'] :: id == id')
  }

  predicate CanSend(t: Table, call: nat) {
    call in t.channels && !t.channels[call].closed && |t.channels[call].buffer| < CAPACITY
  }

  predicate CanReceive(t: Table, call: nat) {
    call in t.channels && (t.channels[call].buffer != [] || t.channels[call].closed)
  }

  /** The closing loop under way: the entries no longer pending have had their channels closed. */
  ghost predicate PartlyClosed(before: Table, t: Table) {
    && t.nextID == before.nextID && t.channels.Keys == before.channels.Keys
    && forall call <- t.channels ::
      t.channels[call] == (if call in before.pending.Values && call !in t.pending.Values
                           then before.channels[call].(closed := true) else before.channels[call])
  }

  lemma {:induction false} CloseOne(before: Table, t: Table, id: int)
    requires PartlyClosed(before, t) && CanClosePending(t) && id in t.pending
    requires t.pending.Values <= before.pending.Values
    ensures var call := t.pending[id];
      var t' := Table(t.nextID, t.pending - {id}, t.channels[call := t.channels[call].(closed := true)]);
      PartlyClosed(before, t') && CanClosePending(t') && t'.pending.Values <= before.pending.Values
  {
    ValuesAfterRemoval(t.pending, id);
  }

  class JsonRpcConn {
    var nextID: nat
    var pending: map<int, nat>
    var channels: map<nat, Channel>

    function View(): Table
      reads this
    {
      Table(nextID, pending, channels)
    }

    constructor ()
      ensures View() == Table(0, map[], map[])
    {
      nextID, pending, channels := 0, map[], map[];
    }

    method TakeNumber() returns (id: int)
      modifies this
      ensures View() == Numbered(old(View())) && id == View().nextID
      ensures id == nextID == old(nextID) + 1 && pending == old(pending) && channels == old(channels)
    {
      nextID := nextID + 1;
      id := nextID;
    }

    method Register(id: int, call: nat)
      modifies this
      ensures View() == Registered(old(View()), id, call)
      ensures pending == old(pending)[id := call] && channels == old(channels)[call := Channel([], false, 0)]
      ensures nextID == old(nextID)
    {
      channels := channels[call := FRESH];
      pending := pending[id := call];
    }

    method Forget(id: int)
      modifies this
      ensures View() == Without(old(View()), id)
      ensures pending == old(pending) - {id} && channels == old(channels) && nextID == old(nextID)
    {
      pending := pending - {id};
    }

    /** The reader's critical section on a response. */
    method Take(id: int) returns (call: Option<nat>)
      modifies this
      ensures call == if id in old(pending) then Some(old(pending)[id]) else None
      ensures View() == Without(old(View()), id)
      ensures pending == old(pending) - {id} && channels == old(channels) && nextID == old(nextID)
    {
      if id in pending {
        call := Some(pending[id]);
        pending := pending - {id};
      } else {
        call := None;
        assert pending - {id} == pending;
      }
    }

    method Deliver(call: nat, msg: Message)
      requires CanSend(View(), call)
      modifies this
      ensures View() == Sent(old(View()), call, msg)
      ensures var ch := old(channels)[call];
        channels == old(channels)[call := ch.(buffer := ch.buffer + [msg], sends := ch.sends + 1)]
      ensures pending == old(pending) && nextID == old(nextID)
    {
      var ch := channels[call];
      channels := channels[call := Channel(ch.buffer + [msg], ch.closed, ch.sends + 1)];
    }

    method Receive(call: nat) returns (msg: Option<Message>)
      requires CanReceive(View(), call)
      modifies this
      ensures msg.Some? <==> old(channels)[call].buffer != []
      ensures msg.Some? ==> msg.value == old(channels)[call].buffer[0] && View() == Received(old(View()), call)
      ensures msg.None? ==> View() == old(View())
      ensures msg.Some? ==> var ch := old(channels)[call];
        channels == old(channels)[call := ch.(buffer := ch.buffer[1..])]
      ensures pending == old(pending) && nextID == old(nextID)
    {
      var ch := channels[call];
      if ch.buffer != [] {
        msg := Some(ch.buffer[0]);
        channels := channels[call := ch.(buffer := ch.buffer[1..])];
      } else {
        msg := None;
      }
    }

    /** The reader's last critical section: close and delete while ranging over the table. */
    method CloseAllPending()
      requires CanClosePending(View())
      modifies this
      ensures View() == AllClosed(old(View()))
      ensures pending == map[] && nextID == old(nextID) && channels.Keys == old(channels).Keys
      ensures forall call <- channels ::
        channels[call] == if call in old(pending).Values then old(channels)[call].(closed := true)
                          else old(channels)[call]
    {
      ghost var before := View();
      while pending.Keys != {}
        invariant PartlyClosed(before, View()) && CanClosePending(View()) && pending.Values <= before.pending.Values
        decreases |pending|
      {
        ghost var w := SomeKey(pending);
        var id :| id in pending.Keys;
        var call := pending[id];
        CloseOne(before, View(), id);
        OneKeyLess(pending, id);
        channels := channels[call := channels[call].(closed := true)];
        pending := pending - {id};
      }
      assert pending == map[];
      assert AllClosed(before).channels == channels;
    }
  }

  lemma ValuesAfterRemoval(m: map<int, nat>, id: int)
    requires id in m && forall k <- m | m[k] == m[id] :: k == id
    ensures (m - {id}).Values == m.Values - {m[id]}
  {
    forall v | v in m.Values && v != m[id] ensures v in (m - {id}).Values {
      var k := KeyOf(m, v);
      assert k in m - {id};
    }
    if m[id] in (m - {id}).Values {
      var k := KeyOf(m - {id}, m[id]);
      assert false;
    }
  }

  // ---------------------------------------------------------------- the interleavings

  datatype Result = Answer(msg: Message) | ConnectionClosed | SendFailed | ContextDone

  /** Where one call of `request` stands. */
  datatype Call =
    | HasNumber(id: int)                 // counter bumped
    | InTable(id: int)                   // channel registered, frame not yet written
    | Waiting(id: int)                   // in the select
    | GivingUp(id: int, result: Result)  // decided to fail, table entry not yet deleted
    | Returned(id: int, result: Result)

  datatype Reader = Reading | Holding(call: nat, msg: Message) | Stopped

  datatype State = State(table: Table, calls: map<nat, Call>, reader: Reader, incoming: seq<Message>)

  datatype Event =
    | Number(call: nat)
    | Register(call: nat)
    | Write(call: nat, ok: bool)
    | Receive(call: nat)
    | Done(call: nat)
    | Forget(call: nat)
    | Incoming(msg: Message)
    | Deliver
    | ReadError
    | ReaderCancelled

  predicate IsResponse(msg: Message) { msg.id.Some? && msg.procedure == "" }

  predicate Enabled(s: State, e: Event) {
    match e
    case Number(c) => c !in s.calls
    case Register(c) => c in s.calls && s.calls[c].HasNumber?
    case Write(c, _) => c in s.calls && s.calls[c].InTable?
    case Receive(c) => c in s.calls && s.calls[c].Waiting? && CanReceive(s.table, c)
    case Done(c) => c in s.calls && s.calls[c].Waiting?
    case Forget(c) => c in s.calls && s.calls[c].GivingUp?
    case Incoming(_) => s.reader.Reading?
    case Deliver => s.reader.Holding? && CanSend(s.table, s.reader.call)
    case ReadError => s.reader.Reading? && CanClosePending(s.table)
    case ReaderCancelled => s.reader.Reading?
  }

  function Next(s: State, e: Event): State
    requires Enabled(s, e)
  {
    match e
    case Number(c) =>
      var t := Numbered(s.table);
      s.(table := t, calls := s.calls[c := HasNumber(t.nextID)])
    case Register(c) =>
      var id := s.calls[c].id;
      s.(table := Registered(s.table, id, c), calls := s.calls[c := InTable(id)])
    case Write(c, ok) =>
      var id := s.calls[c].id;
      s.(calls := s.calls[c := if ok then Waiting(id) else GivingUp(id, SendFailed)])
    case Receive(c) =>
      var id, ch := s.calls[c].id, s.table.channels[c];
      if ch.buffer == [] then s.(calls := s.calls[c := Returned(id, ConnectionClosed)])
      else s.(table := Received(s.table, c), calls := s.calls[c := Returned(id, Answer(ch.buffer[0]))])
    case Done(c) =>
      s.(calls := s.calls[c := GivingUp(s.calls[c].id, ContextDone)])
    case Forget(c) =>
      var call := s.calls[c];
      s.(table := Without(s.table, call.id), calls := s.calls[c := Returned(call.id, call.result)])
    case Incoming(msg) =>
      var s' := s.(incoming := s.incoming + [msg]);
      if IsResponse(msg) && msg.id.value in s.table.pending then
        s'.(table := Without(s.table, msg.id.value), reader := Holding(s.table.pending[msg.id.value], msg))
      else s'
    case Deliver =>
      s.(table := Sent(s.table, s.reader.call, s.reader.msg), reader := Reading)
    case ReadError =>
      s.(table := AllClosed(s.table), reader := Stopped)
    case ReaderCancelled =>
      s.(reader := Stopped)
  }

  const INITIAL := State(Table(0, map[], map[]), map[], Reading, [])

  ghost predicate IsRun(s: State, events: seq<Event>)
    decreases events
  {
    events == [] || (Enabled(s, events[0]) && IsRun(Next(s, events[0]), events[1..]))
  }

  ghost function After(s: State, events: seq<Event>): State
    requires IsRun(s, events)
    decreases events
  {
    if events == [] then s else After(Next(s, events[0]), events[1..])
  }

  // ---------------------------------------------------------------- the invariant

  /** Everything that concerns one call: where it stands, its channel, whether the table leads to it, and
      the message the reader holds for it. */
  datatype Local = Local(call: Call, channel: Option<Channel>, inTable: bool, held: Option<Message>)

  function LocalOf(s: State, c: nat): Local
    requires c in s.calls
  {
    Local(s.calls[c],
          if c in s.table.channels then Some(s.table.channels[c]) else None,
          s.calls[c].id in s.table.pending && s.table.pending[s.calls[c].id] == c,
          if s.reader.Holding? && s.reader.call == c then Some(s.reader.msg) else None)
  }

  predicate ForCall(msg: Message, call: Call, incoming: seq<Message>) {
    msg.id == Some(call.id) && msg.procedure == "" && msg in incoming
  }

  /** One send or one close, never both, and only messages meant for this call. */
  predicate ChannelFine(ch: Channel, call: Call, incoming: seq<Message>) {
    && |ch.buffer| <= ch.sends <= 1
    && (ch.closed ==> ch.sends == 0)
    && (ch.buffer != [] ==> ForCall(ch.buffer[0], call, incoming))
  }

  predicate ResultFine(call: Call, incoming: seq<Message>) {
    && (call.GivingUp? ==> call.result == SendFailed || call.result == ContextDone)
    && (call.Returned? && call.result.Answer? ==> ForCall(call.result.msg, call, incoming))
  }

  /** Somebody will still wake the call: nothing addressed to it is ever dropped. */
  predicate CanBeWoken(l: Local) {
    l.inTable || l.held.Some? || (l.channel.Some? && (l.channel.value.buffer != [] || l.channel.value.closed))
  }

  predicate LocalFine(l: Local, incoming: seq<Message>) {
    && (l.channel.None? <==> l.call.HasNumber?)
    && (l.channel.Some? ==> ChannelFine(l.channel.value, l.call, incoming))
    && (l.inTable || l.held.Some? ==> l.channel == Some(FRESH))
    && (l.inTable ==> l.held.None? && !l.call.Returned?)
    && (l.held.Some? ==> ForCall(l.held.value, l.call, incoming))
    && ResultFine(l.call, incoming)
    && (l.call.InTable? || l.call.Waiting? ==> CanBeWoken(l))
  }

  ghost predicate Numbering(s: State) {
    && (forall c <- s.calls :: 1 <= s.calls[c].id <= s.table.nextID)
    && (forall c <- s.calls, d <- s.calls | s.calls[c].id == s.calls[d].id :: c == d)
  }

  ghost predicate TableFine(s: State) {
    && s.table.channels.Keys <= s.calls.Keys
    && (forall id <- s.table.pending :: s.table.pending[id] in s.calls && s.calls[s.table.pending[id]].id == id)
    && (s.reader.Holding? ==> s.reader.call in s.calls)
  }

  ghost predicate Inv(s: State) {
    Numbering(s) && TableFine(s) && forall c <- s.calls :: LocalFine(LocalOf(s, c), s.incoming)
  }

  lemma MoreIncoming(l: Local, incoming: seq<Message>, more: seq<Message>)
    requires LocalFine(l, incoming) && forall m <- incoming :: m in more
    ensures LocalFine(l, more)
  {
  }

  /** A step that concerns one call only. */
  lemma {:induction false} OneCallMoves(s: State, s': State, c: nat)
    requires Inv(s) && Numbering(s') && TableFine(s')
    requires s'.calls.Keys == s.calls.Keys + {c} && forall m <- s.incoming :: m in s'.incoming
    requires forall d <- s.calls | d != c :: LocalOf(s', d) == LocalOf(s, d)
    requires LocalFine(LocalOf(s', c), s'.incoming)
    ensures Inv(s')
  {
    forall d | d in s'.calls ensures LocalFine(LocalOf(s', d), s'.incoming) {
      if d != c {
        assert LocalFine(LocalOf(s, d), s.incoming);
        MoreIncoming(LocalOf(s, d), s.incoming, s'.incoming);
      }
    }
  }

  /** A call changes its standing but keeps its number; the table changes at most in what leads to it. */
  lemma {:induction false} OneCallUpdated(s: State, c: nat, call: Call, t: Table)
    requires Inv(s) && c in s.calls && call.id == s.calls[c].id && t.nextID == s.table.nextID
    requires forall d | d != c :: d in t.channels <==> d in s.table.channels
    requires forall d <- s.table.channels | d != c :: t.channels[d] == s.table.channels[d]
    requires t.pending == s.table.pending || t.pending == s.table.pending - {call.id}
    requires LocalFine(LocalOf(s.(calls := s.calls[c := call], table := t), c), s.incoming)
    ensures Inv(s.(calls := s.calls[c := call], table := t))
  {
    var s' := s.(calls := s.calls[c := call], table := t);
    SameNumbers(s, s');
    OthersSame(s, s', c);
    OneCallMoves(s, s', c);
  }

  lemma {:induction false} SameNumbers(s: State, s': State)
    requires Numbering(s) && s'.calls.Keys == s.calls.Keys && s'.table.nextID == s.table.nextID
    requires forall c <- s.calls :: s'.calls[c].id == s.calls[c].id
    ensures Numbering(s')
  {
  }

  /** Another call sees no difference when its channel stays and no entry with its number changes. */
  lemma {:induction false} OthersSame(s: State, s': State, c: nat)
    requires Inv(s) && c in s.calls && s'.calls.Keys == s.calls.Keys
    requires forall d <- s.calls | d != c :: s'.calls[d] == s.calls[d]
    requires forall d <- s.calls | d != c :: d in s'.table.channels <==> d in s.table.channels
    requires forall d <- s.table.channels | d != c :: s'.table.channels[d] == s.table.channels[d]
    requires forall id | id != s.calls[c].id :: id in s'.table.pending <==> id in s.table.pending
    requires forall id <- s.table.pending | id != s.calls[c].id :: s'.table.pending[id] == s.table.pending[id]
    requires s'.reader == s.reader
      || ((s.reader.Holding? ==> s.reader.call == c) && (s'.reader.Holding? ==> s'.reader.call == c))
    ensures forall d <- s.calls | d != c :: LocalOf(s', d) == LocalOf(s, d)
  {
  }

  lemma {:induction false} StepNumber(s: State, c: nat)
    requires Inv(s) && Enabled(s, Event.Number(c))
    ensures Inv(Next(s, Event.Number(c)))
  {
    var s' := Next(s, Event.Number(c));
    assert forall d <- s.calls :: d in s'.calls && s'.calls[d] == s.calls[d];
    assert s'.calls[c].id !in s'.table.pending;
    OneCallMoves(s, s', c);
  }

  lemma {:induction false} StepRegister(s: State, c: nat)
    requires Inv(s) && Enabled(s, Event.Register(c))
    ensures Inv(Next(s, Event.Register(c)))
  {
    var s' := Next(s, Event.Register(c));
    assert LocalFine(LocalOf(s, c), s.incoming);
    SameNumbers(s, s');
    OthersSame(s, s', c);
    OneCallMoves(s, s', c);
  }

  lemma {:induction false} StepWrite(s: State, c: nat, ok: bool)
    requires Inv(s) && Enabled(s, Event.Write(c, ok))
    ensures Inv(Next(s, Event.Write(c, ok)))
  {
    assert LocalFine(LocalOf(s, c), s.incoming);
    OneCallUpdated(s, c, if ok then Waiting(s.calls[c].id) else GivingUp(s.calls[c].id, SendFailed), s.table);
  }

  lemma {:induction false} StepReceive(s: State, c: nat)
    requires Inv(s) && Enabled(s, Event.Receive(c))
    ensures Inv(Next(s, Event.Receive(c)))
  {
    assert LocalFine(LocalOf(s, c), s.incoming);
    var s' := Next(s, Event.Receive(c));
    OneCallUpdated(s, c, s'.calls[c], s'.table);
  }

  lemma {:induction false} StepDone(s: State, c: nat)
    requires Inv(s) && Enabled(s, Event.Done(c))
    ensures Inv(Next(s, Event.Done(c)))
  {
    assert LocalFine(LocalOf(s, c), s.incoming);
    OneCallUpdated(s, c, GivingUp(s.calls[c].id, ContextDone), s.table);
  }

  lemma {:induction false} StepForget(s: State, c: nat)
    requires Inv(s) && Enabled(s, Event.Forget(c))
    ensures Inv(Next(s, Event.Forget(c)))
  {
    assert LocalFine(LocalOf(s, c), s.incoming);
    OneCallUpdated(s, c, Returned(s.calls[c].id, s.calls[c].result), Without(s.table, s.calls[c].id));
  }

  lemma {:induction false} StepIncoming(s: State, msg: Message)
    requires Inv(s) && Enabled(s, Event.Incoming(msg))
    ensures Inv(Next(s, Event.Incoming(msg)))
  {
    var s' := Next(s, Event.Incoming(msg));
    if IsResponse(msg) && msg.id.value in s.table.pending {
      var c := s.table.pending[msg.id.value];
      assert LocalFine(LocalOf(s, c), s.incoming) && LocalOf(s, c).inTable;
      MoreIncoming(LocalOf(s, c), s.incoming, s'.incoming);
      SameNumbers(s, s');
      OthersSame(s, s', c);
      OneCallMoves(s, s', c);
    } else {
      forall d | d in s'.calls ensures LocalFine(LocalOf(s', d), s'.incoming) {
        MoreIncoming(LocalOf(s, d), s.incoming, s'.incoming);
      }
    }
  }

  lemma {:induction false} StepDeliver(s: State)
    requires Inv(s) && Enabled(s, Event.Deliver)
    ensures Inv(Next(s, Event.Deliver))
  {
    var c := s.reader.call;
    assert LocalFine(LocalOf(s, c), s.incoming) && LocalOf(s, c).held.Some?;
    OneCallMoves(s, Next(s, Event.Deliver), c);
  }

  lemma {:induction false} StepReadError(s: State)
    requires Inv(s) && Enabled(s, Event.ReadError)
    ensures Inv(Next(s, Event.ReadError))
  {
    var s' := Next(s, Event.ReadError);
    forall d | d in s'.calls ensures LocalFine(LocalOf(s', d), s'.incoming) {
      var l := LocalOf(s, d);
      assert LocalFine(l, s.incoming);
      if d in s.table.pending.Values {
        var id := KeyOf(s.table.pending, d);
        assert l.inTable;
      } else {
        assert !l.inTable;
      }
    }
  }

  lemma {:induction false} StepReaderCancelled(s: State)
    requires Inv(s) && Enabled(s, Event.ReaderCancelled)
    ensures Inv(Next(s, Event.ReaderCancelled))
  {
    var s' := Next(s, Event.ReaderCancelled);
    assert forall d <- s.calls :: LocalOf(s', d) == LocalOf(s, d);
  }

  lemma {:induction false} StepKeepsInv(s: State, e: Event)
    requires Inv(s) && Enabled(s, e)
    ensures Inv(Next(s, e))
  {
    match e
    case Number(c) => StepNumber(s, c);
    case Register(c) => StepRegister(s, c);
    case Write(c, ok) => StepWrite(s, c, ok);
    case Receive(c) => StepReceive(s, c);
    case Done(c) => StepDone(s, c);
    case Forget(c) => StepForget(s, c);
    case Incoming(msg) => StepIncoming(s, msg);
    case Deliver => StepDeliver(s);
    case ReadError => StepReadError(s);
    case ReaderCancelled => StepReaderCancelled(s);
  }

  lemma {:induction false} RunKeepsInv(s: State, events: seq<Event>)
    requires Inv(s) && IsRun(s, events)
    ensures Inv(After(s, events))
    decreases events
  {
    if events != [] {
      StepKeepsInv(s, events[0]);
      RunKeepsInv(Next(s, events[0]), events[1..]);
    }
  }

  // ---------------------------------------------------------------- what every interleaving guarantees

  /** Numbers are never reused; a call returns only a response the peer sent with its own number; a
      channel sees one send or one close, never both. */
  lemma {:induction false} AnswersBelongToTheirCalls(events: seq<Event>)
    requires IsRun(INITIAL, events)
    ensures var s := After(INITIAL, events);
      && (forall c <- s.calls, d <- s.calls | c != d :: s.calls[c].id != s.calls[d].id)
      && (forall c <- s.calls | s.calls[c].Returned? && s.calls[c].result.Answer? ::
            && s.calls[c].result.msg.id == Some(s.calls[c].id) && s.calls[c].result.msg.procedure == ""
            && s.calls[c].result.msg in s.incoming)
      && (forall c <- s.table.channels ::
            s.table.channels[c].sends + (if s.table.channels[c].closed then 1 else 0) <= 1)
  {
    RunKeepsInv(INITIAL, events);
    var s := After(INITIAL, events);
    forall c | c in s.calls ensures LocalFine(LocalOf(s, c), s.incoming) {}
  }

  /** The reader's send never blocks and never hits a closed channel, and its closing loop never
      closes one twice, although it holds no lock when it sends. */
  lemma {:induction false} ReaderNeverBlocks(events: seq<Event>)
    requires IsRun(INITIAL, events)
    ensures var s := After(INITIAL, events);
      && (s.reader.Holding? ==> Enabled(s, Deliver))
      && (s.reader.Holding? ==>
            var c := s.reader.call;
            c in s.table.channels && !s.table.channels[c].closed && s.table.channels[c].buffer == [])
      && (s.reader.Reading? ==> Enabled(s, ReadError))
      && (forall id <- s.table.pending ::
            s.table.pending[id] in s.table.channels && !s.table.channels[s.table.pending[id]].closed)
      && (forall id <- s.table.pending, id' <- s.table.pending | id != id' ::
            s.table.pending[id] != s.table.pending[id'])
  {
    RunKeepsInv(INITIAL, events);
    var s := After(INITIAL, events);
    forall c | c in s.calls ensures LocalFine(LocalOf(s, c), s.incoming) {}
    forall id | id in s.table.pending ensures LocalOf(s, s.table.pending[id]).inTable {}
  }

  /** A response to a waiting call that is still in the table reaches that call in three steps, however
      the run got here. */
  lemma {:induction false} ResponseReachesItsCall(events: seq<Event>, c: nat, msg: Message)
    requires IsRun(INITIAL, events)
    requires var s := After(INITIAL, events);
      && s.reader.Reading? && c in s.calls && s.calls[c].Waiting? && s.calls[c].id in s.table.pending
      && msg.id == Some(s.calls[c].id) && msg.procedure == ""
    ensures var s := After(INITIAL, events);
      && Enabled(s, Incoming(msg))
      && Enabled(Next(s, Incoming(msg)), Deliver)
      && var s2 := Next(Next(s, Incoming(msg)), Deliver);
        && Enabled(s2, Event.Receive(c))
        && var s3 := Next(s2, Event.Receive(c));
          && s3.calls[c] == Returned(s.calls[c].id, Answer(msg)) && s.calls[c].id !in s3.table.pending
          && s3.table.channels[c].buffer == []
  {
    RunKeepsInv(INITIAL, events);
    var s := After(INITIAL, events);
    var d := s.table.pending[s.calls[c].id];
    assert c == d;
    assert LocalFine(LocalOf(s, c), s.incoming) && LocalOf(s, c).inTable;
  }

  /** Requests and notifications of the peer pass every call by, whatever number they carry, and so does an answer
      nobody waits for. */
  lemma OthersPassBy(s: State, msg: Message)
    requires Enabled(s, Incoming(msg))
    requires msg.procedure != "" || msg.id.None? || msg.id.value !in s.table.pending
    ensures Next(s, Incoming(msg)) == s.(incoming := s.incoming + [msg])
  {
  }

  // ---------------------------------------------------------------- the life of a call

  /** A new call takes the next number, has a fresh channel in the table under it, and waits once its frame is
      written. */
  lemma CallStarts(s: State, c: nat)
    requires c !in s.calls
    ensures var id := s.table.nextID + 1;
      && Enabled(s, Number(c)) && Enabled(Next(s, Number(c)), Event.Register(c))
      && var s' := Next(Next(s, Number(c)), Event.Register(c));
        && s'.table == Table(id, s.table.pending[id := c], s.table.channels[c := Channel([], false, 0)])
        && Enabled(s', Write(c, true)) && Next(s', Write(c, true)) == s'.(calls := s.calls[c := Waiting(id)])
  {
    var s' := Next(Next(s, Number(c)), Event.Register(c));
    assert s'.calls[c := Waiting(s.table.nextID + 1)] == s.calls[c := Waiting(s.table.nextID + 1)];
  }

  /** A failed write ends it, and its entry goes. */
  lemma {:induction false} WriteFails(s: State, c: nat)
    requires c in s.calls && s.calls[c].InTable?
    ensures Enabled(s, Write(c, false)) && Enabled(Next(s, Write(c, false)), Event.Forget(c))
    ensures Next(Next(s, Write(c, false)), Event.Forget(c)) == Ended(s, c, SendFailed)
  {
    var s' := Next(s, Write(c, false));
    assert s'.calls[c := Returned(s.calls[c].id, SendFailed)] == Ended(s, c, SendFailed).calls;
  }

  /** So does its context, as long as it waits. */
  lemma {:induction false} ContextEnds(s: State, c: nat)
    requires c in s.calls && s.calls[c].Waiting?
    ensures Enabled(s, Done(c)) && Enabled(Next(s, Done(c)), Event.Forget(c))
    ensures Next(Next(s, Done(c)), Event.Forget(c)) == Ended(s, c, ContextDone)
  {
    var s' := Next(s, Done(c));
    assert s'.calls[c := Returned(s.calls[c].id, ContextDone)] == Ended(s, c, ContextDone).calls;
  }

  /** Only its own end is recorded, and only its own entry removed. */
  function Ended(s: State, c: nat, result: Result): State
    requires c in s.calls
  {
    var id := s.calls[c].id;
    State(Table(s.table.nextID, s.table.pending - {id}, s.table.channels), s.calls[c := Returned(id, result)],
          s.reader, s.incoming)
  }

  /** A call that waits on a closed channel ends with that news. */
  lemma CloseEnds(s: State, c: nat)
    requires c in s.calls && s.calls[c].Waiting?
    requires c in s.table.channels && s.table.channels[c].closed && s.table.channels[c].buffer == []
    ensures Enabled(s, Event.Receive(c))
    ensures Next(s, Event.Receive(c)) == s.(calls := s.calls[c := Returned(s.calls[c].id, ConnectionClosed)])
  {
  }

  /** An answer, a close or the context ends a call only while it waits, and once it has returned it stays so. */
  lemma OnlyWaitingCallsEnd(s: State, e: Event, c: nat)
    requires Enabled(s, e) && c in s.calls
    ensures s.calls[c].Returned? ==> Next(s, e).calls[c] == s.calls[c]
    ensures e == Event.Receive(c) || e == Done(c) ==> s.calls[c].Waiting?
    ensures !s.calls[c].Returned? && Next(s, e).calls[c].Returned? ==> e == Event.Receive(c) || e == Event.Forget(c)
  {
  }

  /** Both ways of leaving stop the reader, for good: it takes nothing in and closes nothing afterwards. */
  lemma {:induction false} StoppedForGood(s: State, e: Event, events: seq<Event>)
    requires Enabled(s, e) && (e.ReadError? || e.ReaderCancelled?) && IsRun(Next(s, e), events)
    ensures After(Next(s, e), events).reader == Stopped && After(Next(s, e), events).incoming == s.incoming
  {
    StoppedStays(Next(s, e), events);
  }

  lemma {:induction false} StoppedStays(s: State, events: seq<Event>)
    requires s.reader == Stopped && IsRun(s, events)
    ensures After(s, events).reader == Stopped && After(s, events).incoming == s.incoming
    decreases events
  {
    if events != [] {
      StoppedStays(Next(s, events[0]), events[1..]);
    }
  }

  // ---------------------------------------------------------------- calls nobody wakes

  /** The call's channel will never see an event again. */
  ghost predicate Abandoned(s: State, c: nat) {
    && Inv(s) && s.reader.Stopped? && c in s.calls && c in s.table.channels && s.table.channels[c] == FRESH
    && ((s.calls[c].GivingUp? || s.calls[c].Returned?) ==> s.calls[c].result in {SendFailed, ContextDone})
  }

  /** Once the reader has stopped, a call still in the table (one made afterwards, or one outstanding when
      the reader left through its context check) ends by its own context or a failed write, never by an
      answer or a close. */
  lemma {:induction false} AfterStopOnlyTheContextEndsACall(s: State, c: nat, events: seq<Event>)
    requires Abandoned(s, c) && IsRun(s, events)
    ensures Abandoned(After(s, events), c)
    ensures var s' := After(s, events);
      && s'.table.channels[c].buffer == [] && !s'.table.channels[c].closed
      && (s'.calls[c].Returned? ==> s'.calls[c].result == SendFailed || s'.calls[c].result == ContextDone)
    decreases events
  {
    if events != [] {
      StepKeepsInv(s, events[0]);
      AfterStopOnlyTheContextEndsACall(Next(s, events[0]), c, events[1..]);
    }
  }

  /** Leaving through the context check abandons every outstanding call; leaving on a read error wakes
      every one of them. */
  lemma {:induction false} TwoWaysToStop(events: seq<Event>, id: int)
    requires IsRun(INITIAL, events) && After(INITIAL, events).reader.Reading?
    requires id in After(INITIAL, events).table.pending
    ensures var s := After(INITIAL, events); var c := s.table.pending[id];
      && Enabled(s, ReadError) && CanReceive(Next(s, ReadError).table, c)
      && Abandoned(Next(s, ReaderCancelled), c)
  {
    RunKeepsInv(INITIAL, events);
    ReaderNeverBlocks(events);
    var s := After(INITIAL, events);
    StepKeepsInv(s, ReaderCancelled);
    assert LocalFine(LocalOf(s, s.table.pending[id]), s.incoming) && LocalOf(s, s.table.pending[id]).inTable;
  }

  /** After the reader has stopped, a waiting call is abandoned exactly when the table still leads to it;
      any other has its answer or its close ready. */
  lemma {:induction false} WhoIsAbandoned(events: seq<Event>, c: nat)
    requires IsRun(INITIAL, events)
    requires var s := After(INITIAL, events); s.reader.Stopped? && c in s.calls && s.calls[c].Waiting?
    ensures var s := After(INITIAL, events);
      && (Abandoned(s, c) <==> s.calls[c].id in s.table.pending)
      && (s.calls[c].id !in s.table.pending ==> CanReceive(s.table, c))
  {
    RunKeepsInv(INITIAL, events);
    var s := After(INITIAL, events);
    assert LocalFine(LocalOf(s, c), s.incoming);
    if s.calls[c].id in s.table.pending {
      assert LocalFine(LocalOf(s, s.table.pending[s.calls[c].id]), s.incoming);
    }
  }

  /** The reader has stopped and the call has not entered the table. */
  ghost predicate TooLate(s: State, c: nat) {
    Inv(s) && s.reader.Stopped? && (c in s.calls ==> s.calls[c].HasNumber?)
  }

  lemma {:induction false} RegisteredTooLate(s: State, c: nat)
    requires TooLate(s, c) && c in s.calls
    ensures Enabled(s, Event.Register(c)) && Abandoned(Next(s, Event.Register(c)), c)
  {
    StepKeepsInv(s, Event.Register(c));
  }

  /** A request made after the reader has stopped is abandoned from the moment it enters the table, so
      whatever follows, only its own context or a failed write ends it. */
  lemma {:induction false} LateRequestEndsOnItsOwn(s: State, c: nat, events: seq<Event>)
    requires TooLate(s, c) && IsRun(s, events)
    ensures TooLate(After(s, events), c) || Abandoned(After(s, events), c)
    decreases events
  {
    if events != [] {
      StepKeepsInv(s, events[0]);
      if events[0] == Event.Register(c) {
        RegisteredTooLate(s, c);
        AfterStopOnlyTheContextEndsACall(Next(s, events[0]), c, events[1..]);
      } else {
        LateRequestEndsOnItsOwn(Next(s, events[0]), c, events[1..]);
      }
    }
  }

  /** The shortest run with such a request. */
  lemma {:induction false} LateRequestExists()
    ensures IsRun(INITIAL, [ReaderCancelled, Number(0), Event.Register(0)])
    ensures Abandoned(After(INITIAL, [ReaderCancelled, Number(0), Event.Register(0)]), 0)
  {
    var events := [ReaderCancelled, Number(0), Event.Register(0)];
    assert events[1..] == [Number(0), Event.Register(0)] && events[1..][1..] == [Event.Register(0)];
    assert events[1..][1..][1..] == [];
    var stopped := Next(INITIAL, ReaderCancelled);
    var numbered := Next(stopped, Number(0));
    assert IsRun(numbered, [Event.Register(0)]) && IsRun(stopped, [Number(0), Event.Register(0)]);
    StepKeepsInv(INITIAL, ReaderCancelled);
    StepKeepsInv(stopped, Number(0));
    RegisteredTooLate(numbered, 0);
    assert After(INITIAL, events) == Next(numbered, Event.Register(0));
  }
}
