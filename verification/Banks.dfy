/**
 The command state machine of DDR3 and HMC: power state per refresh unit (a DDR3
 rank, an HMC vault), one row buffer per bank. Banks are keyed by the address
 components above the row; a unit is a prefix of that key, of length two for DDR3
 (channel, rank) and one for HMC (vault).
 */
module Banks {
  import opened Requests

  datatype Command = ACT | PRE | PREA | RD | WR | REF | PDE | PDX | SRE | SRX

  datatype BankState = Opened | Closed

  datatype Bank = Bank(state: BankState, rows: set<int>)

  type Key = seq<int>

  const ROW: nat := 3  // the level of the row component, in both standards

  datatype Device = Device(unit: nat, power: map<Key, Power>, banks: map<Key, Bank>)
  {
    predicate Shaped() {
      && unit <= ROW
      && (forall u :: u in power ==> |u| == unit)
      && (forall b :: b in banks ==> |b| == ROW && b[..unit] in power)
    }

    predicate AnyOpen(u: Key)
      requires Shaped()
    {
      exists b :: b in banks && b[..unit] == u && banks[b].state != Closed
    }
  }

  /** The first command of a request is looked up by its type. */
  function Translate(r: RequestType): Command {
    match r
    case Read => RD
    case Write => WR
    case Refresh => REF
    case PowerDown => PDE
    case SelfRefresh => SRE
  }

  /** Reads and writes name an existing bank and a row; the other requests only their unit. */
  predicate Addressed(d: Device, r: RequestType, addr: seq<int>)
    requires d.Shaped()
  {
    && ROW < |addr|
    && addr[..d.unit] in d.power
    && (r.Read? || r.Write? ==> addr[..ROW] in d.banks)
  }

  /** The prerequisite search from the channel (or vault) down to the bank. */
  function Decode(d: Device, r: RequestType, addr: seq<int>): (c: Command)
    requires d.Shaped() && Addressed(d, r, addr)
  {
    var u := addr[..d.unit];
    match r
    case Read | Write =>
      (match d.power[u]
       case ActPowerDown | PrePowerDown => PDX
       case SelfRefreshing => SRX
       case PowerUp =>
         var b := d.banks[addr[..ROW]];
         if b.state == Closed then ACT
         else if addr[ROW] in b.rows then Translate(r)
         else PRE)
    case Refresh => if d.AnyOpen(u) then PREA else REF
    case PowerDown => if d.power[u] == SelfRefreshing then SRX else PDE
    case SelfRefresh => if d.power[u] == ActPowerDown || d.power[u] == PrePowerDown then PDX else SRE
  }

  /** The state change of an issued command. */
  function Apply(d: Device, c: Command, addr: seq<int>): (r: Device)
    requires d.Shaped() && ROW < |addr| && addr[..d.unit] in d.power
    requires c == ACT || c == PRE ==> addr[..ROW] in d.banks
    ensures r.Shaped() && r.unit == d.unit && r.power.Keys == d.power.Keys && r.banks.Keys == d.banks.Keys
  {
    var u, g := addr[..d.unit], addr[..ROW];
    match c
    case ACT => d.(banks := d.banks[g := Bank(Opened, d.banks[g].rows + {addr[ROW]})])
    case PRE => d.(banks := d.banks[g := Bank(Closed, {})])
    case PREA => d.(banks := map b | b in d.banks :: if b[..d.unit] == u then Bank(Closed, {}) else d.banks[b])
    case RD | WR | REF => d
    case PDE => d.(power := d.power[u := if d.AnyOpen(u) then ActPowerDown else PrePowerDown])
    case PDX | SRX => d.(power := d.power[u := PowerUp])
    case SRE => d.(power := d.power[u := SelfRefreshing])
  }

  /** Each bank is closed and empty, or open with exactly one row. */
  predicate OneRow(b: Bank) {
    match b.state
    case Closed => b.rows == {}
    case Opened => exists r :: r in b.rows && b.rows == {r}
  }

  lemma OneRowOpened(row: int)
    ensures OneRow(Bank(Opened, {row}))
  {
    assert row in {row};
  }

  predicate SingleRows(d: Device) {
    forall b :: b in d.banks ==> OneRow(d.banks[b])
  }

  /** The number of commands a read or write still needs, itself included. */
  function CommandsNeeded(d: Device, addr: seq<int>): (n: nat)
    requires d.Shaped() && Addressed(d, Read, addr)
    ensures 1 <= n <= 4
  {
    var b := d.banks[addr[..ROW]];
    (if d.power[addr[..d.unit]] == PowerUp then 0 else 1)
    + (if b.state == Closed then 1 else if addr[ROW] in b.rows then 0 else 2)
    + 1
  }

  /**
   Decoding and applying for one address is exact progress: the requested command
   comes up when one command is left, and every other command leaves one fewer.
   So a read or a write gets through after exactly `CommandsNeeded` commands, at most four.
   */
  lemma DecodeMakesProgress(d: Device, r: RequestType, addr: seq<int>)
    requires d.Shaped() && SingleRows(d) && (r.Read? || r.Write?) && Addressed(d, r, addr)
    ensures var c := Decode(d, r, addr);
            var d' := Apply(d, c, addr);
            && SingleRows(d') && Addressed(d', r, addr)
            && (c == Translate(r) <==> CommandsNeeded(d, addr) == 1)
            && (c != Translate(r) ==> CommandsNeeded(d', addr) == CommandsNeeded(d, addr) - 1)
  {
    var c := Decode(d, r, addr);
    DecodedKeepsSingleRows(d, r, addr);
  }

  /** The commands issued for one request, in order, up to and including the requested one. */
  function Script(d: Device, r: RequestType, addr: seq<int>): (cs: seq<Command>)
    requires d.Shaped() && SingleRows(d) && (r.Read? || r.Write?) && Addressed(d, r, addr)
    decreases CommandsNeeded(d, addr)
  {
    var c := Decode(d, r, addr);
    DecodeMakesProgress(d, r, addr);
    if c == Translate(r) then [c] else [c] + Script(Apply(d, c, addr), r, addr)
  }

  /** Alone on the bus, a read or write takes `CommandsNeeded` commands, and only the last is its own. */
  lemma {:induction false} ScriptReachesRequest(d: Device, r: RequestType, addr: seq<int>)
    requires d.Shaped() && SingleRows(d) && (r.Read? || r.Write?) && Addressed(d, r, addr)
    ensures |Script(d, r, addr)| == CommandsNeeded(d, addr) <= 4
    ensures forall i :: 0 <= i < |Script(d, r, addr)| ==>
              (Script(d, r, addr)[i] == Translate(r) <==> i == |Script(d, r, addr)| - 1)
    decreases CommandsNeeded(d, addr)
  {
    DecodeMakesProgress(d, r, addr);
    var c := Decode(d, r, addr);
    if c != Translate(r) {
      ScriptReachesRequest(Apply(d, c, addr), r, addr);
    }
  }

  /** A sleeping unit is woken up first. */
  function WakeUp(p: Power): (cs: seq<Command>) {
    match p
    case PowerUp => []
    case ActPowerDown | PrePowerDown => [PDX]
    case SelfRefreshing => [SRX]
  }

  /** A closed bank is activated; an open one with another row is precharged before. */
  function OpenRow(b: Bank, row: int): (cs: seq<Command>) {
    if b.state == Closed then [ACT] else if row in b.rows then [] else [PRE, ACT]
  }

  predicate Awake(d: Device, r: RequestType, addr: seq<int>) {
    d.Shaped() && SingleRows(d) && (r.Read? || r.Write?) && Addressed(d, r, addr) && d.power[addr[..d.unit]] == PowerUp
  }

  lemma HitScript(d: Device, r: RequestType, addr: seq<int>)
    requires Awake(d, r, addr) && d.banks[addr[..ROW]].state == Opened && addr[ROW] in d.banks[addr[..ROW]].rows
    ensures Script(d, r, addr) == [if r.Read? then RD else WR]
  {
  }

  lemma ClosedScript(d: Device, r: RequestType, addr: seq<int>)
    requires Awake(d, r, addr) && d.banks[addr[..ROW]].state == Closed
    ensures Script(d, r, addr) == [ACT, if r.Read? then RD else WR]
  {
    DecodeMakesProgress(d, r, addr);
    assert Decode(d, r, addr) == ACT;
    HitScript(Apply(d, ACT, addr), r, addr);
  }

  lemma AwakeScript(d: Device, r: RequestType, addr: seq<int>)
    requires Awake(d, r, addr)
    ensures Script(d, r, addr) == OpenRow(d.banks[addr[..ROW]], addr[ROW]) + [if r.Read? then RD else WR]
  {
    var b := d.banks[addr[..ROW]];
    if b.state == Closed {
      ClosedScript(d, r, addr);
    } else if addr[ROW] in b.rows {
      HitScript(d, r, addr);
    } else {
      DecodeMakesProgress(d, r, addr);
      assert Decode(d, r, addr) == PRE;
      ClosedScript(Apply(d, PRE, addr), r, addr);
    }
  }

  /** Waking up changes nothing else. */
  lemma Awakens(d: Device, r: RequestType, addr: seq<int>)
    requires d.Shaped() && SingleRows(d) && (r.Read? || r.Write?) && Addressed(d, r, addr) && d.power[addr[..d.unit]] != PowerUp
    ensures var d1 := Apply(d, Decode(d, r, addr), addr);
            && d1.banks == d.banks && d1.unit == d.unit && d1.power[addr[..d.unit]] == PowerUp
            && SingleRows(d1) && Addressed(d1, r, addr)
            && Script(d, r, addr) == WakeUp(d.power[addr[..d.unit]]) + Script(d1, r, addr)
  {
    DecodeMakesProgress(d, r, addr);
  }

  /** All commands of a read or a write: wake-up by power state, precharge and activate as the bank needs them, then RD or WR. */
  lemma ScriptIs(d: Device, r: RequestType, addr: seq<int>)
    requires d.Shaped() && SingleRows(d) && (r.Read? || r.Write?) && Addressed(d, r, addr)
    ensures Script(d, r, addr)
            == WakeUp(d.power[addr[..d.unit]]) + (OpenRow(d.banks[addr[..ROW]], addr[ROW]) + [if r.Read? then RD else WR])
  {
    if d.power[addr[..d.unit]] == PowerUp {
      AwakeScript(d, r, addr);
    } else {
      Awakens(d, r, addr);
      AwakeScript(Apply(d, Decode(d, r, addr), addr), r, addr);
    }
  }

  /**
   A power-down or self-refresh request leaves the mode it must not come from, and then puts the unit to
   sleep: active power-down exactly if a bank of the unit is open, else precharge power-down; or self refresh.
   */
  lemma GoesToSleep(d: Device, r: RequestType, addr: seq<int>)
    requires d.Shaped() && (r.PowerDown? || r.SelfRefresh?) && Addressed(d, r, addr)
    ensures var u := addr[..d.unit]; var c := Decode(d, r, addr);
            && (r.PowerDown? ==> (c == SRX <==> d.power[u] == SelfRefreshing) && (c != SRX ==> c == PDE))
            && (r.SelfRefresh? ==> (c == PDX <==> d.power[u] in {ActPowerDown, PrePowerDown}) && (c != PDX ==> c == SRE))
            && var e := if c == SRX || c == PDX then Apply(d, c, addr) else d;
            && Addressed(e, r, addr)
            && Apply(e, Decode(e, r, addr), addr).power[u]
               == (if r.SelfRefresh? then SelfRefreshing else if d.AnyOpen(u) then ActPowerDown else PrePowerDown)
  {
  }

  /** A refresh needs one precharge-all at most. */
  lemma RefreshInTwo(d: Device, addr: seq<int>)
    requires d.Shaped() && Addressed(d, Refresh, addr)
    ensures Decode(d, Refresh, addr) == REF <==> !d.AnyOpen(addr[..d.unit])
    ensures Decode(d, Refresh, addr) != REF ==> Decode(Apply(d, PREA, addr), Refresh, addr) == REF
  {
  }

  lemma DecodedKeepsSingleRows(d: Device, r: RequestType, addr: seq<int>)
    requires d.Shaped() && SingleRows(d) && Addressed(d, r, addr)
    ensures SingleRows(Apply(d, Decode(d, r, addr), addr))
  {
    var c := Decode(d, r, addr);
    var d' := Apply(d, c, addr);
    forall b | b in d'.banks ensures OneRow(d'.banks[b]) {
      assert OneRow(d.banks[b]);
      if c == ACT && b == addr[..ROW] {
        assert d'.banks[b] == Bank(Opened, {addr[ROW]});
        OneRowOpened(addr[ROW]);
      }
    }
  }

  // ----- the row table that shadows the banks -----

  datatype Entry = Entry(row: int, hits: nat, timestamp: int)

  type Table = map<Key, Entry>

  predicate IsOpening(c: Command) { c == ACT }

  predicate IsAccessing(c: Command) { c == RD || c == WR }

  predicate IsClosing(c: Command) { c == PRE || c == PREA }

  /** How many leading components a closing command fixes: the whole bank key, or its unit. */
  function CloseWidth(unit: nat, c: Command): (n: nat) {
    if c == PREA then unit else ROW
  }

  predicate Closes(unit: nat, c: Command, addr: seq<int>, g: Key)
    requires unit <= ROW < |addr| && |g| == ROW
  {
    addr[..CloseWidth(unit, c)] == g[..CloseWidth(unit, c)]
  }

  predicate Keyed(t: Table) {
    forall g :: g in t ==> |g| == ROW
  }

  /** What the three assertions of `RowTable::update` demand. */
  predicate Accepts(t: Table, unit: nat, c: Command, addr: seq<int>)
    requires unit <= ROW < |addr| && Keyed(t)
  {
    && (IsAccessing(c) ==> addr[..ROW] in t && t[addr[..ROW]].row == addr[ROW])
    && (IsClosing(c) ==> exists g :: g in t && Closes(unit, c, addr, g))
  }

  /** The entries that a closing command leaves. */
  function Kept(t: Table, unit: nat, c: Command, addr: seq<int>): (r: Table)
    requires unit <= ROW < |addr| && Keyed(t)
  {
    map k | k in t && !Closes(unit, c, addr, k) :: t[k]
  }

  function Track(t: Table, unit: nat, c: Command, addr: seq<int>, clk: int): (r: Table)
    requires unit <= ROW < |addr| && Keyed(t) && Accepts(t, unit, c, addr)
    ensures Keyed(r)
  {
    var g := addr[..ROW];
    if IsOpening(c) then (if g in t then t else t[g := Entry(addr[ROW], 0, clk)])
    else if IsAccessing(c) then t[g := Entry(t[g].row, t[g].hits + 1, clk)]
    else if IsClosing(c) then Kept(t, unit, c, addr)
    else t
  }

  /** The table lists exactly the open banks, each with its one open row. */
  predicate Mirrors(t: Table, d: Device) {
    && Keyed(t)
    && t.Keys <= d.banks.Keys
    && forall b :: b in d.banks ==> (b in t <==> d.banks[b].state == Opened) && (b in t ==> d.banks[b].rows == {t[b].row})
  }

  lemma BankMirrored(t: Table, d: Device, r: RequestType, addr: seq<int>, clk: int, c: Command, b: Key)
    requires d.Shaped() && SingleRows(d) && Addressed(d, r, addr) && Mirrors(t, d) && b in d.banks
    requires c == Decode(d, r, addr) && Accepts(t, d.unit, c, addr) && b in Apply(d, c, addr).banks
    ensures var t', d' := Track(t, d.unit, c, addr, clk), Apply(d, c, addr);
            (b in t' <==> d'.banks[b].state == Opened) && (b in t' ==> d'.banks[b].rows == {t'[b].row})
  {
    assert |b| == ROW && b[..ROW] == b;
    assert OneRow(d.banks[b]);
    if IsClosing(c) {
      assert Closes(d.unit, c, addr, b) <==> addr[..CloseWidth(d.unit, c)] == b[..CloseWidth(d.unit, c)];
    } else if IsOpening(c) {
      assert b == addr[..ROW] ==> d.banks[b].state == Closed;
    }
  }

  /** On any decoded command the assertions hold, and the table keeps mirroring the banks. */
  lemma TableStep(t: Table, d: Device, r: RequestType, addr: seq<int>, clk: int)
    requires d.Shaped() && SingleRows(d) && Addressed(d, r, addr) && Mirrors(t, d)
    ensures var c := Decode(d, r, addr);
            && Accepts(t, d.unit, c, addr)
            && SingleRows(Apply(d, c, addr))
            && Mirrors(Track(t, d.unit, c, addr, clk), Apply(d, c, addr))
  {
    var c := Decode(d, r, addr);
    DecodedKeepsSingleRows(d, r, addr);
    DecodedIsAccepted(t, d, r, addr);
    var t', d' := Track(t, d.unit, c, addr, clk), Apply(d, c, addr);
    forall b | b in d'.banks
      ensures (b in t' <==> d'.banks[b].state == Opened) && (b in t' ==> d'.banks[b].rows == {t'[b].row})
    {
      BankMirrored(t, d, r, addr, clk, c, b);
    }
  }

  lemma DecodedIsAccepted(t: Table, d: Device, r: RequestType, addr: seq<int>)
    requires d.Shaped() && SingleRows(d) && Addressed(d, r, addr) && Mirrors(t, d)
    ensures Accepts(t, d.unit, Decode(d, r, addr), addr)
  {
    var c := Decode(d, r, addr);
    if c == PREA {
      var b :| b in d.banks && b[..d.unit] == addr[..d.unit] && d.banks[b].state != Closed;
      assert b in t && Closes(d.unit, c, addr, b);
    } else if c == PRE {
      var g := addr[..ROW];
      assert g in t && g[..ROW] == g && Closes(d.unit, c, addr, g);
    }
  }

  // ----- reading the hit count -----

  /** `get_hits` looks the row up with an operator that makes an empty entry for a bank without one. */
  function GetHits(t: Table, addr: seq<int>): (r: (Table, int))
    requires ROW < |addr| && Keyed(t)
    ensures Keyed(r.0)
  {
    var g := addr[..ROW];
    if g !in t then (t[g := Entry(0, 0, 0)], 0)
    else (t, if t[g].row == addr[ROW] then t[g].hits else 0)
  }

  /** Reading the count of an open bank leaves the table as it is; of a closed one, it no longer mirrors the banks. */
  lemma GetHitsMirrors(t: Table, d: Device, addr: seq<int>)
    requires d.Shaped() && Mirrors(t, d) && Addressed(d, Read, addr)
    ensures Mirrors(GetHits(t, addr).0, d) <==> d.banks[addr[..ROW]].state == Opened
  {
    var t', g := GetHits(t, addr).0, addr[..ROW];
    if d.banks[g].state != Opened {
      assert g in t' && g in d.banks;
    } else {
      assert t' == t;
    }
  }

  /**
   After the count of a closed bank was read, its activate leaves the empty entry in place. The read of the row then meets
   the assertion on the row, which holds if and only if it is row zero.
   */
  lemma HitCountThenAssert(t: Table, d: Device, addr: seq<int>, clk: int)
    requires d.Shaped() && Mirrors(t, d) && Addressed(d, Read, addr) && d.banks[addr[..ROW]].state == Closed
    ensures var t1 := GetHits(t, addr).0; var t2 := Track(t1, d.unit, ACT, addr, clk);
            Accepts(t2, d.unit, RD, addr) <==> addr[ROW] == 0
  {
  }

  // ----- whole runs -----

  datatype Request = Request(kind: RequestType, addr: seq<int>, clk: int)

  datatype System = System(device: Device, table: Table)

  predicate Served(s: System, q: Request) {
    s.device.Shaped() && Addressed(s.device, q.kind, q.addr)
  }

  /** One scheduled request: its first outstanding command is issued, then the row table is told. */
  function Serve(s: System, q: Request): (r: System)
    requires Served(s, q) && SingleRows(s.device) && Mirrors(s.table, s.device)
    ensures r.device.Shaped() && SingleRows(r.device) && Mirrors(r.table, r.device)
    ensures r.device.power.Keys == s.device.power.Keys && r.device.banks.Keys == s.device.banks.Keys
  {
    var c := Decode(s.device, q.kind, q.addr);
    TableStep(s.table, s.device, q.kind, q.addr, q.clk);
    System(Apply(s.device, c, q.addr), Track(s.table, s.device.unit, c, q.addr, q.clk))
  }

  predicate AllClosed(d: Device) {
    forall b :: b in d.banks ==> d.banks[b] == Bank(Closed, {})
  }

  ghost predicate ServableAll(s: System, qs: seq<Request>) {
    s.device.Shaped() && forall i :: 0 <= i < |qs| ==> Addressed(s.device, qs[i].kind, qs[i].addr)
  }

  lemma AddressedSameKeys(d: Device, e: Device, r: RequestType, addr: seq<int>)
    requires d.Shaped() && e.Shaped() && e.unit == d.unit && e.power.Keys == d.power.Keys && e.banks.Keys == d.banks.Keys
    ensures Addressed(d, r, addr) == Addressed(e, r, addr)
  {
  }

  /** The system after a run of requests, from reset. */
  ghost function Run(d: Device, qs: seq<Request>): (s: System)
    requires d.Shaped() && AllClosed(d)
    requires ServableAll(System(d, map[]), qs)
    ensures s.device.Shaped() && s.device.unit == d.unit
    ensures s.device.power.Keys == d.power.Keys && s.device.banks.Keys == d.banks.Keys
    ensures SingleRows(s.device) && Mirrors(s.table, s.device)
    decreases |qs|
  {
    if qs == [] then System(d, map[]) else
    var s := Run(d, qs[..|qs| - 1]);
    var q := qs[|qs| - 1];
    assert Addressed(d, q.kind, q.addr);
    AddressedSameKeys(d, s.device, q.kind, q.addr);
    Serve(s, q)
  }

  /** A command of a run, with the bank and the clock it went out for. */
  datatype Sent = Sent(cmd: Command, bank: Key, clk: int)

  ghost function Log(d: Device, qs: seq<Request>): (log: seq<Sent>)
    requires d.Shaped() && AllClosed(d)
    requires ServableAll(System(d, map[]), qs)
    decreases |qs|
  {
    if qs == [] then [] else
    var s := Run(d, qs[..|qs| - 1]);
    var q := qs[|qs| - 1];
    assert Addressed(d, q.kind, q.addr);
    AddressedSameKeys(d, s.device, q.kind, q.addr);
    Log(d, qs[..|qs| - 1]) + [Sent(Decode(s.device, q.kind, q.addr), q.addr[..ROW], q.clk)]
  }

  /** Reads and writes of a bank since its last activate. */
  ghost function HitsSince(log: seq<Sent>, b: Key): (n: nat) {
    if log == [] then 0 else
    var last, before := log[|log| - 1], log[..|log| - 1];
    if last.bank != b then HitsSince(before, b)
    else if last.cmd == RD || last.cmd == WR then HitsSince(before, b) + 1
    else if last.cmd == ACT then 0
    else HitsSince(before, b)
  }

  /** When a bank was last activated, read or written. */
  ghost function LastUsed(log: seq<Sent>, b: Key): (clk: int) {
    if log == [] then 0 else
    var last, before := log[|log| - 1], log[..|log| - 1];
    if last.bank == b && last.cmd in {ACT, RD, WR} then last.clk else LastUsed(before, b)
  }

  ghost predicate Counts(t: Table, log: seq<Sent>) {
    forall b :: b in t ==> t[b].hits == HitsSince(log, b) && t[b].timestamp == LastUsed(log, b)
  }

  lemma TrackCounts(t: Table, unit: nat, c: Command, addr: seq<int>, clk: int, log: seq<Sent>)
    requires unit <= ROW < |addr| && Keyed(t) && Accepts(t, unit, c, addr) && Counts(t, log)
    requires c == ACT ==> addr[..ROW] !in t
    ensures Counts(Track(t, unit, c, addr, clk), log + [Sent(c, addr[..ROW], clk)])
  {
    var now := log + [Sent(c, addr[..ROW], clk)];
    assert now[..|now| - 1] == log;
  }

  lemma ServeCounts(s: System, q: Request, log: seq<Sent>)
    requires Served(s, q) && SingleRows(s.device) && Mirrors(s.table, s.device) && Counts(s.table, log)
    ensures Counts(Serve(s, q).table, log + [Sent(Decode(s.device, q.kind, q.addr), q.addr[..ROW], q.clk)])
  {
    var c := Decode(s.device, q.kind, q.addr);
    DecodedIsAccepted(s.table, s.device, q.kind, q.addr);
    TrackCounts(s.table, s.device.unit, c, q.addr, q.clk, log);
  }

  /** After any run an entry of the table counts the reads and writes of its bank since the activate, and has the clock of the last of these. */
  lemma {:induction false} TableCounts(d: Device, qs: seq<Request>)
    requires d.Shaped() && AllClosed(d) && ServableAll(System(d, map[]), qs)
    ensures Counts(Run(d, qs).table, Log(d, qs))
    decreases |qs|
  {
    if qs == [] {
    } else {
      var s, q := Run(d, qs[..|qs| - 1]), qs[|qs| - 1];
      TableCounts(d, qs[..|qs| - 1]);
      assert Addressed(d, q.kind, q.addr);
      AddressedSameKeys(d, s.device, q.kind, q.addr);
      ServeCounts(s, q, Log(d, qs[..|qs| - 1]));
    }
  }

  /**
   After any run of requests the table mirrors the banks, every bank has at most one
   open row, and the assertions of `update` hold for whatever request comes next.
   */
  lemma RowTableNeverAsserts(d: Device, qs: seq<Request>, q: Request)
    requires d.Shaped() && AllClosed(d)
    requires ServableAll(System(d, map[]), qs) && Addressed(d, q.kind, q.addr)
    ensures var s := Run(d, qs);
            && Mirrors(s.table, s.device) && SingleRows(s.device)
            && Addressed(s.device, q.kind, q.addr)
            && Accepts(s.table, d.unit, Decode(s.device, q.kind, q.addr), q.addr)
  {
    var s := Run(d, qs);
    AddressedSameKeys(d, s.device, q.kind, q.addr);
    TableStep(s.table, s.device, q.kind, q.addr, q.clk);
  }
}

/** The row table as the mutable object of the controller. */
module RowTables {
  import opened Banks

  class RowTable {
    var table: Table

    constructor ()
      ensures table == map[]
    {
      table := map[];
    }

    /** Inserts, edits or erases entries; the assertions are exactly the precondition `Accepts`. */
    method Update(unit: nat, c: Command, addr: seq<int>, clk: int)
      requires unit <= ROW < |addr| && Keyed(table) && Accepts(table, unit, c, addr)
      modifies this
      ensures table == Track(old(table), unit, c, addr, clk)
    {
      var rowgroup := addr[..ROW];
      var row := addr[ROW];
      if IsOpening(c) {
        if rowgroup !in table {
          table := table[rowgroup := Entry(row, 0, clk)];
        }
      }
      if IsAccessing(c) {
        assert rowgroup in table;
        assert table[rowgroup].row == row;
        table := table[rowgroup := table[rowgroup].(hits := table[rowgroup].hits + 1, timestamp := clk)];
      }
      if IsClosing(c) {
        ghost var k :| k in table && Closes(unit, c, addr, k);
        var removed := Erase(unit, c, addr);
        assert k !in table;
        assert removed > 0;
      }
    }

    /** The pass over the table that drops every entry the command closes. */
    method Erase(unit: nat, c: Command, addr: seq<int>) returns (removed: nat)
      requires unit <= ROW < |addr| && Keyed(table)
      modifies this
      ensures table == Kept(old(table), unit, c, addr)
      ensures removed == 0 ==> table == old(table)
    {
      var gone := ClosedKeys(table.Keys, unit, c, addr);
      removed := |gone|;
      table := table - gone;
    }
  }

  method ClosedKeys(keys: set<Key>, unit: nat, c: Command, addr: seq<int>) returns (gone: set<Key>)
    requires unit <= ROW < |addr| && forall k :: k in keys ==> |k| == ROW
    ensures gone <= keys && forall k :: k in keys ==> (k in gone <==> Closes(unit, c, addr, k))
  {
    gone := {};
    var todo := keys;
    while todo != {}
      invariant todo <= keys && gone <= keys - todo
      invariant forall k :: k in keys - todo ==> (k in gone <==> Closes(unit, c, addr, k))
      decreases |todo|
    {
      var k :| k in todo;
      todo := todo - {k};
      if Closes(unit, c, addr, k) {
        gone := gone + {k};
      }
    }
  }
}
