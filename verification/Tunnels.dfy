/** `tunnelManager` (internal/ssh/tunnel.go): background tunnels kept alive by ssh control masters and
    remembered in state.json files. The short hash tells the tunnels in use apart, state files are never
    corrupted, and ssh starts and ends masters faithfully; every other external operation may fail. */
module Tunnels {
  import opened Options

  /** What the directory name of a tunnel is hashed from. */
  datatype Slot = Slot(directory: string, runID: string, key: string)

  datatype TunnelState = TunnelState(key: string, runID: string, localPort: int, targetPort: int, scheme: string,
                                     socketPath: string)

  datatype TunnelConfig = TunnelConfig(slot: Slot, localPort: int, targetPort: int, scheme: string)

  datatype Result = Opened(localPort: int, scheme: string) | Failed

  /** External operations that may fail on their own. */
  datatype Fault = MakeDirectory | AllocatePort | PrepareFiles | StartMaster | WriteState | RemoveSocket | RemoveState

  /** A directory entry: the state directory and the name in it. */
  datatype Entry = Entry(directory: string, name: string)

  function SocketPath(temp: string, name: string): string { temp + "/rwx-preview-" + name + ".sock" }

  /** No two of the tunnels in use collide. A name is a sequence of hexadecimal digits, so it holds no slash. */
  ghost predicate GoodHash(hash: Slot -> string, slots: iset<Slot>) {
    && (forall s <- slots, t <- slots | hash(s) == hash(t) :: s == t)
    && (forall s <- slots :: '/' !in hash(s))
  }

  lemma {:induction false} LastComponent(a: string, b: string, a': string, b': string)
    requires '/' !in b && '/' !in b' && a + "/" + b == a' + "/" + b'
    ensures b == b'
  {
    var p, p' := a + "/" + b, a' + "/" + b';
    assert p[|a|] == '/' && p'[|a'|] == '/';
    assert p[|a| + 1..] == b && p'[|a'| + 1..] == b';
  }

  /** The socket path, whatever the temporary directory, gives the name away. */
  lemma {:induction false} SocketPathsDiffer(temp: string, name: string, temp': string, name': string)
    requires '/' !in name && '/' !in name' && SocketPath(temp, name) == SocketPath(temp', name')
    ensures name == name'
  {
    var b, b' := "rwx-preview-" + name + ".sock", "rwx-preview-" + name' + ".sock";
    assert SocketPath(temp, name) == temp + "/" + b && SocketPath(temp', name') == temp' + "/" + b';
    LastComponent(temp, b, temp', b');
    assert b[12..|b| - 5] == name && b'[12..|b'| - 5] == name';
  }

  /** Removing the file of a socket cuts off the master that serves it. */
  function OwnersOf(live: map<string, Slot>, socket: string): set<Slot> {
    set s | s in live && s == socket :: live[s]
  }

  lemma OneOwner(live: map<string, Slot>, socket: string)
    ensures socket in live ==> OwnersOf(live, socket) == {live[socket]}
    ensures socket !in live ==> OwnersOf(live, socket) == {}
  {
  }

  /** The state file of a slot names the control socket. */
  predicate IsRecorded(hash: Slot -> string, entries: map<Entry, Option<TunnelState>>, slot: Slot, socket: string) {
    var e := Entry(slot.directory, hash(slot));
    && e in entries && entries[e].Some?
    && entries[e].value.socketPath == socket && entries[e].value.key == slot.key && entries[e].value.runID == slot.runID
  }

  /** A state file is the one of the slot its directory name is hashed from. */
  ghost predicate IsIntact(hash: Slot -> string, slots: iset<Slot>, e: Entry, state: TunnelState) {
    && Slot(e.directory, state.runID, state.key) in slots
    && state.key != "" && e.name == hash(Slot(e.directory, state.runID, state.key))
    && exists temp :: state.socketPath == SocketPath(temp, e.name)
  }

  /** State files of different tunnels name different sockets. */
  lemma {:induction false} SocketsDiffer(hash: Slot -> string, slots: iset<Slot>, e: Entry, state: TunnelState,
                                         e': Entry, state': TunnelState)
    requires GoodHash(hash, slots) && IsIntact(hash, slots, e, state) && IsIntact(hash, slots, e', state')
    requires Slot(e.directory, state.runID, state.key) != Slot(e'.directory, state'.runID, state'.key)
    ensures state.socketPath != state'.socketPath
  {
    var temp :| state.socketPath == SocketPath(temp, e.name);
    var temp' :| state'.socketPath == SocketPath(temp', e'.name);
    if state.socketPath == state'.socketPath {
      SocketPathsDiffer(temp, e.name, temp', e'.name);
    }
  }

  lemma {:induction false} RecordNewMaster(hash: Slot -> string, slots: iset<Slot>,
                                           entries: map<Entry, Option<TunnelState>>,
                                           live: map<string, Slot>, slot: Slot, state: TunnelState)
    requires GoodHash(hash, slots) && slot in slots
    requires forall socket <- live ::
      live[socket] in slots && live[socket] != slot && IsRecorded(hash, entries, live[socket], socket)
    requires state.key == slot.key && state.runID == slot.runID
    ensures var entries' := entries[Entry(slot.directory, hash(slot)) := Some(state)];
      var live' := live[state.socketPath := slot];
      forall socket <- live' :: live'[socket] in slots && IsRecorded(hash, entries', live'[socket], socket)
  {
  }

  predicate IsOf(directory: string, runID: string, slot: Slot) {
    slot.directory == directory && slot.runID == runID
  }

  /** An entry of another state directory, or of another run. */
  predicate IsElsewhere(directory: string, runID: string, e: Entry, state: Option<TunnelState>) {
    e.directory != directory || (state.Some? && state.value.runID != runID)
  }

  predicate IsEntryOf(directory: string, runID: string, entries: map<Entry, Option<TunnelState>>, e: Entry) {
    e.directory == directory && e in entries && entries[e].Some? && entries[e].value.runID == runID
  }

  predicate Harmless(faults: set<Fault>) { RemoveSocket !in faults && RemoveState !in faults }

  /** Nothing fails while the tunnels of the run with an entry among these are closed. */
  predicate AllHarmless(directory: string, runID: string, entries: map<Entry, Option<TunnelState>>,
                        among: set<Entry>, faults: Slot -> set<Fault>)
  {
    forall e <- among | IsEntryOf(directory, runID, entries, e) ::
      Harmless(faults(Slot(directory, runID, entries[e].value.key)))
  }

  lemma SplitHarmless(directory: string, runID: string, entries: map<Entry, Option<TunnelState>>,
                      among: set<Entry>, e: Entry, faults: Slot -> set<Fault>)
    requires e in among
    ensures AllHarmless(directory, runID, entries, among, faults)
      <==> (AllHarmless(directory, runID, entries, {e}, faults)
            && AllHarmless(directory, runID, entries, among - {e}, faults))
  {
  }

  lemma HarmlessElsewhere(directory: string, runID: string, entries: map<Entry, Option<TunnelState>>,
                          entries': map<Entry, Option<TunnelState>>, among: set<Entry>, e: Entry,
                          faults: Slot -> set<Fault>)
    requires e !in among && (entries' == entries || entries' == entries - {e})
    ensures AllHarmless(directory, runID, entries', among, faults)
       <==> AllHarmless(directory, runID, entries, among, faults)
  {
  }

  /** Every master of the run in the directory still waits for its entry to be visited. */
  predicate OnlyIn(hash: Slot -> string, live: map<string, Slot>, directory: string, runID: string, todo: set<Entry>) {
    forall socket <- live | IsOf(directory, runID, live[socket]) :: Entry(directory, hash(live[socket])) in todo
  }

  predicate NotAt(hash: Slot -> string, live: map<string, Slot>, directory: string, runID: string, e: Entry) {
    forall socket <- live | IsOf(directory, runID, live[socket]) :: Entry(directory, hash(live[socket])) != e
  }

  lemma {:induction false} OneLessIn(hash: Slot -> string, live: map<string, Slot>, live': map<string, Slot>,
                                     directory: string, runID: string, e: Entry, rest: set<Entry>)
    requires OnlyIn(hash, live, directory, runID, {e} + rest)
    requires forall socket <- live' :: socket in live && live'[socket] == live[socket]
    requires NotAt(hash, live', directory, runID, e)
    ensures OnlyIn(hash, live', directory, runID, rest)
  {
  }

  /** Closing the tunnels of a run in a directory ends masters of that run only, and touches no other entry. */
  predicate OnlyOfRun(directory: string, runID: string, before: map<string, Slot>, after: map<string, Slot>,
                      entries: map<Entry, Option<TunnelState>>, entries': map<Entry, Option<TunnelState>>)
  {
    && (forall socket <- after :: socket in before && after[socket] == before[socket])
    && (forall socket <- before | !IsOf(directory, runID, before[socket]) :: socket in after)
    && (forall e <- entries | IsElsewhere(directory, runID, e, entries[e]) ::
          e in entries' && entries'[e] == entries[e])
  }

  /** Closing one tunnel of the run is such a step. */
  lemma {:induction false} OnlyOfSlot(slot: Slot, e: Entry, live: map<string, Slot>, live': map<string, Slot>,
      entries: map<Entry, Option<TunnelState>>, entries': map<Entry, Option<TunnelState>>)
    requires forall socket <- live' :: socket in live && live'[socket] == live[socket]
    requires forall socket <- live | live[socket] != slot :: socket in live'
    requires entries' == entries || entries' == entries - {e}
    requires IsEntryOf(slot.directory, slot.runID, entries, e)
    ensures OnlyOfRun(slot.directory, slot.runID, live, live', entries, entries')
  {
  }

  lemma {:induction false} OnlyOfRunTwice(directory: string, runID: string, live: map<string, Slot>,
      live': map<string, Slot>, live'': map<string, Slot>, entries: map<Entry, Option<TunnelState>>,
      entries': map<Entry, Option<TunnelState>>, entries'': map<Entry, Option<TunnelState>>)
    requires OnlyOfRun(directory, runID, live, live', entries, entries')
    requires OnlyOfRun(directory, runID, live', live'', entries', entries'')
    ensures OnlyOfRun(directory, runID, live, live'', entries, entries'')
  {
  }

  /** The state of the previous tunnel with the same key and run. */
  predicate IsOwn(cfg: TunnelConfig, state: Option<TunnelState>) {
    state.Some? && state.value.key == cfg.slot.key && state.value.runID == cfg.slot.runID
  }

  ghost predicate IsPrevious(cfg: TunnelConfig, state: Option<TunnelState>) {
    exists s :: state == Some(s) && s.key == cfg.slot.key && s.runID == cfg.slot.runID
  }

  function SchemeFor(cfg: TunnelConfig, state: Option<TunnelState>): string {
    if cfg.scheme != "" then cfg.scheme
    else if IsOwn(cfg, state) && state.value.scheme != "" then state.value.scheme
    else "http"
  }

  /** An explicit port is used as it is; the port of the previous tunnel again if it is free; else a new one. */
  function PortFor(cfg: TunnelConfig, state: Option<TunnelState>, freePorts: set<int>, newPort: int): int {
    if cfg.localPort != 0 then cfg.localPort
    else if IsOwn(cfg, state) && state.value.localPort != 0 && state.value.localPort in freePorts then
      state.value.localPort
    else newPort
  }

  /** Only a tunnel without a usable port of its own asks for a new one. */
  predicate NeedsNewPort(cfg: TunnelConfig, state: Option<TunnelState>, freePorts: set<int>) {
    cfg.localPort == 0 && !(IsOwn(cfg, state) && state.value.localPort != 0 && state.value.localPort in freePorts)
  }

  predicate Acceptable(cfg: TunnelConfig, state: Option<TunnelState>) {
    && cfg.slot.key != "" && 1 <= cfg.targetPort <= 65535 && 0 <= cfg.localPort <= 65535
    && (SchemeFor(cfg, state) == "http" || SchemeFor(cfg, state) == "https")
  }

  /** What a request must meet: a key, ports in range, and a scheme requested, remembered or assumed that is one
      of the two. */
  lemma AcceptableMeans(cfg: TunnelConfig, state: Option<TunnelState>)
    ensures Acceptable(cfg, state) ==> cfg.slot.key != "" && 1 <= cfg.targetPort <= 65535 && 0 <= cfg.localPort <= 65535
    ensures cfg.slot.key != "" && 1 <= cfg.targetPort <= 65535 && 0 <= cfg.localPort <= 65535 ==>
      && (cfg.scheme != "" ==> (Acceptable(cfg, state) <==> cfg.scheme == "http" || cfg.scheme == "https"))
      && (cfg.scheme == "" && !IsPrevious(cfg, state) ==> Acceptable(cfg, state))
      && (cfg.scheme == "" && IsPrevious(cfg, state) ==>
            (Acceptable(cfg, state) <==> state.value.scheme in {"", "http", "https"}))
    ensures NeedsNewPort(cfg, state, {}) <==> cfg.localPort == 0
  {
  }

  method ChooseScheme(cfg: TunnelConfig, state: Option<TunnelState>) returns (scheme: string)
    ensures scheme == SchemeFor(cfg, state)
    ensures cfg.scheme != "" ==> scheme == cfg.scheme
    ensures cfg.scheme == "" && IsPrevious(cfg, state) && state.value.scheme != "" ==> scheme == state.value.scheme
    ensures cfg.scheme == "" && (!IsPrevious(cfg, state) || state.value.scheme == "") ==> scheme == "http"
  {
    scheme := cfg.scheme;
    if scheme == "" && IsOwn(cfg, state) {
      scheme := state.value.scheme;
    }
    if scheme == "" {
      scheme := "http";
    }
  }

  method ChoosePort(cfg: TunnelConfig, state: Option<TunnelState>, freePorts: set<int>, newPort: int,
                    faults: set<Fault>)
    returns (port: Option<int>)
    ensures port.None? <==> NeedsNewPort(cfg, state, freePorts) && AllocatePort in faults
    ensures port.Some? ==> port.value == PortFor(cfg, state, freePorts, newPort)
    ensures cfg.localPort != 0 ==> port == Some(cfg.localPort)
    ensures cfg.localPort == 0 && IsPrevious(cfg, state) && state.value.localPort in freePorts - {0} ==>
      port == Some(state.value.localPort)
    ensures cfg.localPort == 0 && (!IsPrevious(cfg, state) || state.value.localPort !in freePorts - {0}) ==>
      port == if AllocatePort in faults then None else Some(newPort)
  {
    var localPort := cfg.localPort;
    if localPort == 0 && IsOwn(cfg, state) {
      localPort := state.value.localPort;
    }
    if localPort != 0 && cfg.localPort == 0 && localPort !in freePorts {
      localPort := 0;
    }
    if localPort == 0 {
      if AllocatePort in faults {
        return None;
      }
      localPort := newPort;
    }
    port := Some(localPort);
  }

  /** One machine: the state directories (None: a directory without state.json), the live masters by
      control socket, socket files nobody serves, and masters cut off from their socket. */
  class Host {
    const hash: Slot -> string
    ghost const slots: iset<Slot>
    var entries: map<Entry, Option<TunnelState>>
    var live: map<string, Slot>
    var stale: set<string>
    var orphans: set<Slot>

    ghost predicate Valid()
      reads this
    {
      && GoodHash(hash, slots)
      && orphans == {}
      && (forall socket <- live :: live[socket] in slots && IsRecorded(hash, entries, live[socket], socket))
      && (forall e <- entries | entries[e].Some? :: IsIntact(hash, slots, e, entries[e].value))
    }

    constructor (hash: Slot -> string, ghost slots: iset<Slot>)
      requires GoodHash(hash, slots)
      ensures Valid() && this.hash == hash && this.slots == slots
      ensures live == map[] && entries == map[] && stale == {}
    {
      this.hash, this.slots := hash, slots;
      entries, live, stale, orphans := map[], map[], {}, {};
    }

    /** At most one master is live per slot. */
    lemma OneMasterPerSlot(a: string, b: string)
      requires Valid() && a in live && b in live && live[a] == live[b]
      ensures a == b
    {
      assert IsRecorded(hash, entries, live[a], a) && IsRecorded(hash, entries, live[b], b);
    }

    /** Two different slots never share a control socket. */
    lemma SocketOwner(socket: string, e: Entry)
      requires Valid() && socket in live && e in entries && entries[e].Some? && entries[e].value.socketPath == socket
      ensures live[socket] == Slot(e.directory, entries[e].value.runID, entries[e].value.key)
    {
      var slot := live[socket];
      var e' := Entry(slot.directory, hash(slot));
      assert IsRecorded(hash, entries, slot, socket) && IsIntact(hash, slots, e, entries[e].value)
        && IsIntact(hash, slots, e', entries[e'].value);
      var temp :| socket == SocketPath(temp, e.name);
      var temp' :| socket == SocketPath(temp', e'.name);
      SocketPathsDiffer(temp, e.name, temp', e'.name);
    }

    ghost predicate NoMasterFor(slot: Slot)
      reads this
    {
      forall socket <- live :: live[socket] != slot
    }

    /** Once a slot has no master, the socket path it will use has none either. */
    lemma SocketIsFree(slot: Slot, temp: string)
      requires Valid() && slot in slots && NoMasterFor(slot)
      ensures SocketPath(temp, hash(slot)) !in live
    {
      var socket := SocketPath(temp, hash(slot));
      if socket in live {
        var e := Entry(live[socket].directory, hash(live[socket]));
        assert IsRecorded(hash, entries, live[socket], socket) && IsIntact(hash, slots, e, entries[e].value);
        var temp' :| socket == SocketPath(temp', e.name);
        SocketPathsDiffer(temp, hash(slot), temp', e.name);
      }
    }

    /** closeControlMaster: `ssh -O exit`; a missing socket file means there is nothing to close. */
    method CloseControlMaster(socketPath: string) returns (ok: bool)
      modifies this`live
      ensures ok <==> socketPath in old(live) || socketPath !in stale
      ensures live == old(live) - {socketPath}
    {
      if socketPath in live {
        live := live - {socketPath};
        return true;
      }
      assert live - {socketPath} == live;
      ok := socketPath !in stale;
    }

    /** What no operation on a slot may touch. */
    twostate predicate OtherMastersKept(slot: Slot)
      reads this
    {
      && (forall socket <- old(live) | old(live)[socket] != slot :: socket in live && live[socket] == old(live)[socket])
      && (forall socket <- live | live[socket] != slot :: socket in old(live) && live[socket] == old(live)[socket])
    }

    /** The directory entries of other slots. */
    twostate predicate OtherEntriesKept(slot: Slot)
      reads this
    {
      forall e: Entry | e != Entry(slot.directory, hash(slot)) ::
        && (e in entries <==> e in old(entries))
        && (e in entries ==> entries[e] == old(entries)[e])
    }

    function StateOf(slot: Slot): Option<TunnelState>
      reads this
    {
      var e := Entry(slot.directory, hash(slot));
      if e in entries then entries[e] else None
    }

    /** All that closing a slot does to masters and socket files. */
    twostate predicate OnlyCloses(slot: Slot)
      reads this
    {
      var state := old(StateOf(slot));
      && (live == old(live) || (state.Some? && live == old(live) - {state.value.socketPath}))
      && (stale == old(stale) || (state.Some? && stale == old(stale) - {state.value.socketPath}))
    }

    /** An existing state file is the slot's own: the names of all others differ. */
    lemma StateIsOwn(slot: Slot)
      requires Valid() && slot in slots && StateOf(slot).Some?
      ensures StateOf(slot).value.key == slot.key && StateOf(slot).value.runID == slot.runID
      ensures StateOf(slot).value.socketPath != ""
      ensures forall socket <- live | live[socket] == slot :: socket == StateOf(slot).value.socketPath
      ensures StateOf(slot).value.socketPath in live ==> live[StateOf(slot).value.socketPath] == slot
    {
      var e := Entry(slot.directory, hash(slot));
      assert IsIntact(hash, slots, e, StateOf(slot).value);
      forall socket | socket in live && live[socket] == slot ensures socket == StateOf(slot).value.socketPath {
        assert IsRecorded(hash, entries, slot, socket);
      }
      if StateOf(slot).value.socketPath in live {
        SocketOwner(StateOf(slot).value.socketPath, e);
      }
    }

    /** The recorded socket serves a master that can be asked to end, or its file is gone. */
    predicate Replaceable(slot: Slot)
      reads this
    {
      var state := StateOf(slot);
      state.None? || state.value.socketPath in live || state.value.socketPath !in stale
    }

    /** It can be closed when nothing fails and no socket file without a master is in the way. */
    predicate CanClose(slot: Slot, faults: set<Fault>)
      reads this
    {
      slot.key != "" && (StateOf(slot).None? || (Replaceable(slot) && Harmless(faults)))
    }

    lemma ClosingMeans(slot: Slot, faults: set<Fault>)
      ensures StateOf(slot).None? ==> Replaceable(slot) && (CanClose(slot, faults) <==> slot.key != "")
      ensures StateOf(slot).Some? ==>
        var socket := StateOf(slot).value.socketPath;
        && (Replaceable(slot) <==> socket in live || socket !in stale)
        && (CanClose(slot, faults) <==>
              && slot.key != "" && (socket in live || socket !in stale)
              && RemoveSocket !in faults && RemoveState !in faults)
    {
    }

    /** The part of Open that reads the state directory and closes the tunnel it replaces. */
    method CloseExisting(slot: Slot) returns (ok: bool)
      requires Valid() && slot in slots
      modifies this`live
      ensures Valid() && OtherMastersKept(slot) && live.Keys <= old(live).Keys
      ensures ok ==> NoMasterFor(slot)
      ensures ok <==> old(Replaceable(slot))
      ensures !ok ==> live == old(live)
      ensures live == old(live) || (StateOf(slot).Some? && live == old(live) - {StateOf(slot).value.socketPath})
    {
      var state := StateOf(slot);
      if state.Some? {
        StateIsOwn(slot);
        ok := CloseControlMaster(state.value.socketPath);
      } else {
        assert forall socket <- live | live[socket] == slot :: IsRecorded(hash, entries, slot, socket);
        ok := true;
      }
    }

    /** Removing what is left at the new socket path cuts off no master. */
    method ClearSocket(slot: Slot, socketPath: string, ghost temp: string)
      requires Valid() && slot in slots && NoMasterFor(slot) && socketPath == SocketPath(temp, hash(slot))
      modifies this`live, this`orphans, this`stale
      ensures Valid() && live == old(live) && stale == old(stale) - {socketPath}
    {
      SocketIsFree(slot, temp);
      orphans := orphans + OwnersOf(live, socketPath);
      live := live - {socketPath};
      stale := stale - {socketPath};
      assert live == old(live) && orphans == {};
    }

    /** The part of Open from removing the old socket file to writing the state file. */
    method StartAndRecord(slot: Slot, temp: string, state: TunnelState, faults: set<Fault>) returns (ok: bool)
      requires Valid() && slot in slots && NoMasterFor(slot) && slot.key != ""
      requires state.key == slot.key && state.runID == slot.runID && state.socketPath == SocketPath(temp, hash(slot))
      modifies this`live, this`orphans, this`stale, this`entries
      ensures Valid() && OtherMastersKept(slot)
      ensures ok <==> StartMaster !in faults && WriteState !in faults
      ensures ok ==> state.socketPath in live && live[state.socketPath] == slot
      ensures ok ==> entries == old(entries)[Entry(slot.directory, hash(slot)) := Some(state)]
      ensures !ok ==> NoMasterFor(slot) && entries == old(entries)
      ensures stale <= old(stale)
    {
      SocketIsFree(slot, temp);
      var socketPath := state.socketPath;
      ClearSocket(slot, socketPath, temp);
      if StartMaster in faults {
        return false;
      }
      live := live[socketPath := slot];
      if WriteState in faults {
        var closed := CloseControlMaster(socketPath);
        assert live == old(live);
        return false;
      }
      RecordNewMaster(hash, slots, old(entries), old(live), slot, state);
      entries := entries[Entry(slot.directory, hash(slot)) := Some(state)];
      assert IsIntact(hash, slots, Entry(slot.directory, hash(slot)), state);
      ok := true;
    }

    /** A master may die at any time, with or without leaving its socket file behind. */
    method MasterDies(socket: string, leavesSocket: bool)
      requires Valid()
      modifies this`live, this`stale
      ensures Valid() && live == old(live) - {socket}
      ensures stale == if leavesSocket then old(stale) + {socket} else old(stale)
    {
      live := live - {socket};
      if leavesSocket {
        stale := stale + {socket};
      }
    }

    method Open(cfg: TunnelConfig, temp: string, freePorts: set<int>, newPort: int, faults: set<Fault>)
      returns (r: Result)
      requires Valid() && cfg.slot in slots
      modifies this
      ensures Valid() && OtherMastersKept(cfg.slot) && OtherEntriesKept(cfg.slot) && stale <= old(stale)
      ensures r.Opened? ==>
        var socket := SocketPath(temp, hash(cfg.slot));
        && socket in live && live[socket] == cfg.slot
        && 1 <= cfg.targetPort <= 65535 && (r.scheme == "http" || r.scheme == "https")
        && r.scheme == SchemeFor(cfg, old(StateOf(cfg.slot)))
        && r.localPort == PortFor(cfg, old(StateOf(cfg.slot)), freePorts, newPort)
        && StateOf(cfg.slot)
           == Some(TunnelState(cfg.slot.key, cfg.slot.runID, r.localPort, cfg.targetPort, r.scheme, socket))
      ensures r.Opened? <==>
        && Acceptable(cfg, old(StateOf(cfg.slot))) && old(Replaceable(cfg.slot))
        && MakeDirectory !in faults && PrepareFiles !in faults && StartMaster !in faults && WriteState !in faults
        && (NeedsNewPort(cfg, old(StateOf(cfg.slot)), freePorts) ==> AllocatePort !in faults)
      ensures r.Failed? ==> StateOf(cfg.slot) == old(StateOf(cfg.slot)) && live.Keys <= old(live).Keys
      ensures !old(Replaceable(cfg.slot)) ==> !Replaceable(cfg.slot)
    {
      if cfg.slot.key == "" || cfg.targetPort < 1 || cfg.targetPort > 65535
         || cfg.localPort < 0 || cfg.localPort > 65535 {
        return Failed;
      }
      if MakeDirectory in faults {
        return Failed;
      }
      var entry := Entry(cfg.slot.directory, hash(cfg.slot));
      MakeEntry(entry);
      var state := StateOf(cfg.slot);
      var scheme := ChooseScheme(cfg, state);
      if scheme != "http" && scheme != "https" {
        return Failed;
      }
      var closed := CloseExisting(cfg.slot);
      if !closed {
        return Failed;
      }
      var localPort := ChoosePort(cfg, state, freePorts, newPort, faults);
      if localPort.None? || PrepareFiles in faults {
        return Failed;
      }
      var socket := SocketPath(temp, hash(cfg.slot));
      var newState := TunnelState(cfg.slot.key, cfg.slot.runID, localPort.value, cfg.targetPort, scheme, socket);
      var started := StartAndRecord(cfg.slot, temp, newState, faults);
      r := if started then Opened(localPort.value, scheme) else Failed;
    }

    method MakeEntry(entry: Entry)
      requires Valid()
      modifies this`entries
      ensures Valid()
      ensures entries == if entry in old(entries) then old(entries) else old(entries)[entry := None]
    {
      if entry !in entries {
        entries := entries[entry := None];
      }
    }

    method Close(slot: Slot, faults: set<Fault>) returns (ok: bool)
      requires Valid() && slot in slots
      modifies this
      ensures Valid() && OtherMastersKept(slot)
      ensures ok ==> NoMasterFor(slot) && StateOf(slot).None?
      ensures OnlyCloses(slot)
      ensures ok <==> old(CanClose(slot, faults))
      ensures !old(Replaceable(slot)) ==> !Replaceable(slot) && StateOf(slot) == old(StateOf(slot))
      ensures entries == old(entries) || entries == old(entries) - {Entry(slot.directory, hash(slot))}
    {
      if slot.key == "" {
        return false;
      }
      var entry := Entry(slot.directory, hash(slot));
      var state := StateOf(slot);
      if state.None? {
        assert forall socket <- live | live[socket] == slot :: IsRecorded(hash, entries, slot, socket);
        return true;
      }
      StateIsOwn(slot);
      ok := CloseExisting(slot);
      if !ok || RemoveSocket in faults {
        return false;
      }
      stale := stale - {state.value.socketPath};
      if RemoveState in faults {
        return false;
      }
      entries := entries - {entry};
      forall socket | socket in live ensures IsRecorded(hash, entries, live[socket], socket) {
        assert live[socket] != slot && IsRecorded(hash, old(entries), live[socket], socket);
        assert Entry(live[socket].directory, hash(live[socket])) != entry;
      }
    }

    /** Every tunnel of the run with an entry among these can be replaced. */
    predicate AllReplaceable(directory: string, runID: string, among: set<Entry>)
      reads this
    {
      forall e <- among | IsEntryOf(directory, runID, entries, e) ::
        Replaceable(Slot(directory, runID, entries[e].value.key))
    }

    /** Closing one tunnel changes nothing about whether another can be closed. */
    twostate lemma OtherReplaceable(slot: Slot, new e: Entry, new state: TunnelState)
      requires GoodHash(hash, slots) && slot in slots && OnlyCloses(slot) && e != Entry(slot.directory, hash(slot))
      requires old(StateOf(slot)).Some? ==>
        IsIntact(hash, slots, Entry(slot.directory, hash(slot)), old(StateOf(slot)).value)
      requires e in old(entries) && e in entries && old(entries)[e] == entries[e] == Some(state)
      requires IsIntact(hash, slots, e, state)
      ensures var t := Slot(e.directory, state.runID, state.key); Replaceable(t) <==> old(Replaceable(t))
    {
      var t := Slot(e.directory, state.runID, state.key);
      assert e == Entry(t.directory, hash(t));
      if old(StateOf(slot)).Some? {
        SocketsDiffer(hash, slots, Entry(slot.directory, hash(slot)), old(StateOf(slot)).value, e, state);
      }
    }

    twostate lemma OthersReplaceable(new slot: Slot, new directory: string, new runID: string,
                                      new rest: set<Entry>)
      requires old(Valid()) && slot in slots && OnlyCloses(slot) && Entry(slot.directory, hash(slot)) !in rest
      requires forall e <- rest :: e in entries <==> e in old(entries)
      requires forall e <- rest | e in entries :: entries[e] == old(entries)[e]
      ensures AllReplaceable(directory, runID, rest) <==> old(AllReplaceable(directory, runID, rest))
    {
      forall e | e in rest && IsEntryOf(directory, runID, entries, e)
        ensures var t := Slot(directory, runID, entries[e].value.key); Replaceable(t) <==> old(Replaceable(t))
      {
        OtherReplaceable(slot, e, entries[e].value);
      }
    }

    lemma SplitReplaceable(directory: string, runID: string, among: set<Entry>, e: Entry)
      requires e in among
      ensures AllReplaceable(directory, runID, among)
         <==> AllReplaceable(directory, runID, {e}) && AllReplaceable(directory, runID, among - {e})
    {
    }

    /** One entry of the directory: `rest` are the others, and nothing changes for them. */
    method CloseEntry(runID: string, directory: string, e: Entry, ghost rest: set<Entry>, faults: Slot -> set<Fault>)
      returns (ok: bool)
      requires Valid() && e.directory == directory && e !in rest
      modifies this
      ensures Valid() && OnlyOfRun(directory, runID, old(live), live, old(entries), entries)
      ensures ok ==> NotAt(hash, live, directory, runID, e)
      ensures entries == old(entries) || (IsEntryOf(directory, runID, old(entries), e) && entries == old(entries) - {e})
      ensures ok <==>
        old(AllReplaceable(directory, runID, {e})) && AllHarmless(directory, runID, old(entries), {e}, faults)
      ensures AllReplaceable(directory, runID, rest) <==> old(AllReplaceable(directory, runID, rest))
    {
      if e in entries && entries[e].Some? && entries[e].value.runID == runID {
        var slot := Slot(directory, runID, entries[e].value.key);
        OneEntry(runID, directory, e, faults);
        ghost var live', entries' := live, entries;
        ok := Close(slot, faults(slot));
        assert forall socket <- live :: socket in live' && live[socket] == live'[socket];
        OnlyOfSlot(slot, e, live', live, entries', entries);
        NothingAt(slot, runID, directory);
        OthersReplaceable(slot, directory, runID, rest);
      } else {
        ok := true;
        NoMasterIn(runID, directory, e);
      }
    }

    lemma OneEntry(runID: string, directory: string, e: Entry, faults: Slot -> set<Fault>)
      requires Valid() && IsEntryOf(directory, runID, entries, e)
      ensures var slot := Slot(directory, runID, entries[e].value.key);
        && slot in slots && e == Entry(slot.directory, hash(slot)) && StateOf(slot).Some?
        && (CanClose(slot, faults(slot))
            <==> AllReplaceable(directory, runID, {e}) && AllHarmless(directory, runID, entries, {e}, faults))
    {
      assert IsIntact(hash, slots, e, entries[e].value);
    }

    lemma NoMasterIn(runID: string, directory: string, e: Entry)
      requires Valid() && !IsEntryOf(directory, runID, entries, e)
      ensures NotAt(hash, live, directory, runID, e)
    {
      forall socket | socket in live && IsOf(directory, runID, live[socket])
        ensures Entry(directory, hash(live[socket])) != e
      {
        assert IsRecorded(hash, entries, live[socket], socket);
      }
    }

    lemma NothingAt(slot: Slot, runID: string, directory: string)
      requires Valid() && slot in slots
      ensures NoMasterFor(slot) ==> NotAt(hash, live, directory, runID, Entry(slot.directory, hash(slot)))
    {
    }

    /** `faults` tells what fails while each tunnel is closed. A failure is collected, not fatal. */
    method CloseAll(runID: string, directory: string, faults: Slot -> set<Fault>) returns (ok: bool)
      requires Valid()
      modifies this
      ensures Valid() && OnlyOfRun(directory, runID, old(live), live, old(entries), entries)
      ensures ok ==> forall socket <- live :: !IsOf(directory, runID, live[socket])
      ensures ok <==>
        && old(AllReplaceable(directory, runID, entries.Keys))
        && AllHarmless(directory, runID, old(entries), old(entries).Keys, faults)
    {
      var todo := set e | e in entries && e.directory == directory;
      ok := true;
      assert OnlyIn(hash, live, directory, runID, todo) by {
        forall socket | socket in live && live[socket].directory == directory
          ensures Entry(directory, hash(live[socket])) in todo
        {
          assert IsRecorded(hash, entries, live[socket], socket);
        }
      }
      while todo != {}
        invariant Valid() && OnlyOfRun(directory, runID, old(live), live, old(entries), entries)
        invariant ok ==> OnlyIn(hash, live, directory, runID, todo)
        invariant old(AllReplaceable(directory, runID, entries.Keys))
            && AllHarmless(directory, runID, old(entries), old(entries).Keys, faults)
          <==> ok && AllReplaceable(directory, runID, todo) && AllHarmless(directory, runID, entries, todo, faults)
        invariant forall e <- todo :: e.directory == directory
        decreases |todo|
      {
        var e :| e in todo;
        SplitReplaceable(directory, runID, todo, e);
        SplitHarmless(directory, runID, entries, todo, e, faults);
        ghost var live', entries' := live, entries;
        assert todo == {e} + (todo - {e});
        var closed := CloseEntry(runID, directory, e, todo - {e}, faults);
        HarmlessElsewhere(directory, runID, entries', entries, todo - {e}, e, faults);
        OnlyOfRunTwice(directory, runID, old(live), live', live, old(entries), entries', entries);
        if ok && closed {
          OneLessIn(hash, live', live, directory, runID, e, todo - {e});
        }
        ok := ok && closed;
        todo := todo - {e};
      }
    }
  }

  // ---------------------------------------------------------------- the assumptions can be met

  const FIRST := Slot("/tunnels", "run", "web")
  const SECOND := Slot("/tunnels", "run", "db")

  function ExampleHash(slot: Slot): string {
    if slot == FIRST then "00c0ffee00c0ffee" else "0123456789abcdef"
  }

  /** A hash into sixteen hexadecimal digits can tell the tunnels in use apart. */
  lemma {:induction false} ExampleHashIsGood()
    ensures GoodHash(ExampleHash, iset{FIRST, SECOND})
    ensures forall s :: |ExampleHash(s)| == 16
  {
    assert FIRST.key[0] != SECOND.key[0];
    assert ExampleHash(FIRST)[1] != ExampleHash(SECOND)[1];
  }

  /** A machine starts with no tunnel. Opening two and closing one leaves the other live and recorded. */
  method OpenTwoCloseOne(hash: Slot -> string, ghost slots: iset<Slot>, a: Slot, b: Slot, temp: string)
    returns (host: Host)
    requires GoodHash(hash, slots) && a in slots && b in slots && a != b && a.key != "" && b.key != ""
    ensures fresh(host) && host.Valid() && host.hash == hash
    ensures host.NoMasterFor(a) && host.StateOf(a).None?
    ensures SocketPath(temp, hash(b)) in host.live && host.live[SocketPath(temp, hash(b))] == b && host.StateOf(b).Some?
  {
    host := new Host(hash, slots);
    var first := host.Open(TunnelConfig(a, 8080, 80, ""), temp, {}, 49152, {});
    assert first.Opened? && host.StateOf(b).None? && host.Replaceable(b);
    var second := host.Open(TunnelConfig(b, 0, 5432, "https"), temp, {}, 49153, {});
    assert second.Opened? && host.Replaceable(a);
    var closed := host.Close(a, {});
    assert closed;
  }

  /** With the example hash in place of the hypothesis. */
  method ExampleHost(temp: string) returns (host: Host)
    ensures fresh(host) && host.Valid() && host.StateOf(FIRST).None? && host.StateOf(SECOND).Some?
  {
    ExampleHashIsGood();
    host := OpenTwoCloseOne(ExampleHash, iset{FIRST, SECOND}, FIRST, SECOND, temp);
  }

  /** A master that dies and leaves its socket file behind: its tunnel can be neither reopened nor closed. */
  method LeftoverSocket(hash: Slot -> string, ghost slots: iset<Slot>, a: Slot, temp: string, faults: set<Fault>)
    returns (host: Host, reopened: Result, closed: bool)
    requires GoodHash(hash, slots) && a in slots && a.key != ""
    ensures fresh(host) && host.Valid() && host.live == map[] && host.StateOf(a).Some?
    ensures reopened.Failed? && !closed && !host.Replaceable(a)
  {
    host := new Host(hash, slots);
    var first := host.Open(TunnelConfig(a, 8080, 80, ""), temp, {}, 49152, {});
    assert first.Opened?;
    host.MasterDies(SocketPath(temp, hash(a)), true);
    assert host.NoMasterFor(a);
    reopened := host.Open(TunnelConfig(a, 8080, 80, ""), temp, {}, 49153, faults);
    closed := host.Close(a, faults);
  }
}
