/**
 Subarray-level parallelism: the command state machines of SALP-1, SALP-2 and MASA
 over one rank, with the choice of the offending subarray for PRE_OTHER.
 */
module Salp {
  import opened Requests

  datatype Kind = SALP1 | SALP2 | MASA

  datatype Command = ACT | SASEL | PRE | PRER | RD | WR | REF | PDE | PDX | SRE | SRX | PRE_OTHER

  datatype State = Opened | Closed | Selected

  datatype Subarray = Subarray(state: State, rows: set<int>)

  datatype Bank = Bank(state: State, subs: seq<Subarray>)

  datatype Rank = Rank(power: Power, banks: seq<Bank>)

  datatype Address = Address(bank: nat, sub: nat, row: int)

  const CLOSED := Subarray(Closed, {})

  function Translate(r: RequestType): Command {
    match r
    case Read => RD
    case Write => WR
    case Refresh => REF
    case PowerDown => PDE
    case SelfRefresh => SRE
  }

  predicate Fits(k: Rank, r: RequestType, a: Address) {
    r.Read? || r.Write? ==> a.bank < |k.banks| && a.sub < |k.banks[a.bank].subs|
  }

  predicate OtherOpen(subs: seq<Subarray>, me: nat, i: int) {
    0 <= i < |subs| && i != me && subs[i].state == Opened
  }

  /** The rank holds something open: SALP-1 looks at its banks, the others at their subarrays. */
  predicate AnyOpen(kind: Kind, k: Rank) {
    if kind.SALP1? then
      exists b :: 0 <= b < |k.banks| && k.banks[b].state != Closed
    else
      exists b, i :: 0 <= b < |k.banks| && 0 <= i < |k.banks[b].subs| && k.banks[b].subs[i].state != Closed
  }

  /** The prerequisite of a column command at the bank and its subarray. */
  function DecodeAccess(kind: Kind, bank: Bank, c: Command, sub: nat, row: int): (r: Command)
    requires sub < |bank.subs|
  {
    var s := bank.subs[sub];
    match kind
    case SALP1 =>
      if bank.state == Closed then ACT
      else if row in s.rows then c
      else if s.rows != {} then PRE
      else PRE_OTHER
    case SALP2 =>
      if s.state == Closed then ACT
      else if row in s.rows then (if exists i :: 0 <= i < |bank.subs| && OtherOpen(bank.subs, sub, i) then PRE_OTHER else c)
      else PRE
    case MASA =>
      if s.state == Closed then ACT
      else if row !in s.rows then PRE
      else if s.state == Opened then SASEL
      else c
  }

  function Decode(kind: Kind, k: Rank, r: RequestType, a: Address): (c: Command)
    requires Fits(k, r, a)
  {
    match r
    case Read | Write =>
      (match k.power
       case ActPowerDown | PrePowerDown => PDX
       case SelfRefreshing => SRX
       case PowerUp => DecodeAccess(kind, k.banks[a.bank], Translate(r), a.sub, a.row))
    case Refresh => if AnyOpen(kind, k) then PRER else REF
    case PowerDown => if k.power == SelfRefreshing then SRX else PDE
    case SelfRefresh => if k.power == ActPowerDown || k.power == PrePowerDown then PDX else SRE
  }

  /** The first other subarray that is open; subarray 0 when there is none. */
  function Offending(subs: seq<Subarray>, me: nat): (o: nat)
    ensures subs != [] ==> o < |subs|
    ensures (exists i :: OtherOpen(subs, me, i)) ==> OtherOpen(subs, me, o)
    ensures forall i :: OtherOpen(subs, me, i) ==> o <= i
  {
    OffendingFrom(subs, me, 0)
  }

  function OffendingFrom(subs: seq<Subarray>, me: nat, from: nat): (o: nat)
    requires from <= |subs|
    ensures subs != [] ==> o < |subs|
    ensures (exists i :: from <= i && OtherOpen(subs, me, i)) ==> OtherOpen(subs, me, o)
    ensures forall i :: from <= i && OtherOpen(subs, me, i) ==> o <= i
    decreases |subs| - from
  {
    if from == |subs| then 0
    else if from != me && subs[from].state == Opened then from
    else OffendingFrom(subs, me, from + 1)
  }

  /** `get_offending_subarray`: the loop over the bank's subarrays with its early exit. */
  method GetOffendingSubarray(subs: seq<Subarray>, me: nat) returns (o: nat)
    ensures o == Offending(subs, me)
  {
    o := 0;
    for i := 0 to |subs|
      invariant o == 0 && Offending(subs, me) == OffendingFrom(subs, me, i)
    {
      if i != me && subs[i].state == Opened {
        o := i;
        break;
      }
    }
  }

  /** PRE_OTHER goes to the offending subarray, everything else to the request's own address. */
  function Target(k: Rank, c: Command, a: Address): (t: Address)
    requires a.bank < |k.banks|
  {
    if c == PRE_OTHER then Address(a.bank, Offending(k.banks[a.bank].subs, a.sub), -1) else a
  }

  /** Selecting a subarray deselects the first other selected one. */
  function Deselect(subs: seq<Subarray>, me: nat, from: nat): (r: seq<Subarray>)
    requires from <= |subs|
    ensures |r| == |subs|
    decreases |subs| - from
  {
    if from == |subs| then subs
    else if from != me && subs[from].state == Selected then subs[from := subs[from].(state := Opened)]
    else Deselect(subs, me, from + 1)
  }

  function ApplyToBank(kind: Kind, bank: Bank, c: Command, sub: nat, row: int): (r: Bank)
    requires sub < |bank.subs|
    ensures |r.subs| == |bank.subs|
  {
    var subs := bank.subs;
    match c
    case ACT =>
      (match kind
       case SALP1 => Bank(Opened, subs[sub := Subarray(Opened, subs[sub].rows + {row})])
       case SALP2 => bank.(subs := subs[sub := Subarray(Opened, subs[sub].rows + {row})])
       case MASA => bank.(subs := Deselect(subs[sub := Subarray(Selected, subs[sub].rows + {row})], sub, 0)))
    case SASEL =>
      if kind.MASA? then bank.(subs := Deselect(subs[sub := subs[sub].(state := Selected)], sub, 0)) else bank
    case PRE =>
      if kind.SALP1? then Bank(Closed, subs[sub := CLOSED]) else bank.(subs := subs[sub := CLOSED])
    case PRE_OTHER =>
      (match kind
       case SALP1 => Bank(Closed, subs[sub := CLOSED])
       case SALP2 => bank.(subs := subs[sub := CLOSED])
       case MASA => bank)
    case _ => bank
  }

  function CloseAll(kind: Kind, bank: Bank): (r: Bank)
    ensures |r.subs| == |bank.subs|
  {
    Bank(if kind.SALP1? then Closed else bank.state, seq(|bank.subs|, _ => CLOSED))
  }

  predicate OnBank(c: Command) {
    c in {ACT, SASEL, PRE, PRE_OTHER}
  }

  function Apply(kind: Kind, k: Rank, c: Command, a: Address): (r: Rank)
    requires OnBank(c) ==> a.bank < |k.banks| && a.sub < |k.banks[a.bank].subs|
    ensures |r.banks| == |k.banks|
    ensures forall b :: 0 <= b < |k.banks| ==> |r.banks[b].subs| == |k.banks[b].subs|
  {
    match c
    case PRER => k.(banks := seq(|k.banks|, b requires 0 <= b < |k.banks| => CloseAll(kind, k.banks[b])))
    case PDE => k.(power := if AnyOpen(kind, k) then ActPowerDown else PrePowerDown)
    case PDX | SRX => k.(power := PowerUp)
    case SRE => k.(power := SelfRefreshing)
    case RD | WR | REF => k
    case ACT | SASEL | PRE | PRE_OTHER =>
      k.(banks := k.banks[a.bank := ApplyToBank(kind, k.banks[a.bank], c, a.sub, a.row)])
  }

  // ----- what every run keeps -----

  /** Closed means no row, open or selected means exactly one. */
  predicate OneRow(s: Subarray) {
    match s.state
    case Closed => s.rows == {}
    case Opened | Selected => exists r :: r in s.rows && s.rows == {r}
  }

  ghost predicate Consistent(kind: Kind, bank: Bank) {
    && (forall i :: 0 <= i < |bank.subs| ==> OneRow(bank.subs[i]))
    && match kind
       case SALP1 =>
         // Opened exactly when one subarray is, and then only that one
         && bank.state != Selected
         && (forall i :: 0 <= i < |bank.subs| ==> bank.subs[i].state != Selected)
         && (bank.state == Closed ==> forall i :: 0 <= i < |bank.subs| ==> bank.subs[i].state == Closed)
         && (bank.state == Opened ==> exists o :: OnlyOpen(bank, o))
       case SALP2 => forall i :: 0 <= i < |bank.subs| ==> bank.subs[i].state != Selected
       case MASA =>
         // at most one subarray is selected
         forall i, j :: 0 <= i < j < |bank.subs| ==> !(bank.subs[i].state == Selected && bank.subs[j].state == Selected)
  }

  ghost predicate OnlyOpen(bank: Bank, o: int) {
    && 0 <= o < |bank.subs| && bank.subs[o].state == Opened
    && forall i :: 0 <= i < |bank.subs| && i != o ==> bank.subs[i].state == Closed
  }

  ghost predicate Sound(kind: Kind, k: Rank) {
    forall b :: 0 <= b < |k.banks| ==> Consistent(kind, k.banks[b])
  }

  lemma {:induction false} DeselectEffect(subs: seq<Subarray>, me: nat, from: nat)
    requires me < |subs| && from <= |subs|
    requires forall i, j :: 0 <= i < j < |subs| && i != me && j != me ==> !(subs[i].state == Selected && subs[j].state == Selected)
    requires forall i :: 0 <= i < from && i != me ==> subs[i].state != Selected
    ensures var r := Deselect(subs, me, from);
            && r[me] == subs[me]
            && forall i :: 0 <= i < |r| && i != me ==>
                 r[i] == if subs[i].state == Selected then subs[i].(state := Opened) else subs[i]
    decreases |subs| - from
  {
    if from < |subs| && !(from != me && subs[from].state == Selected) {
      DeselectEffect(subs, me, from + 1);
    }
  }

  /** In SALP-1 the only open subarray is the one PRE_OTHER goes to. */
  lemma OffendingIsTheOpenOne(bank: Bank, sub: nat, row: int, c: Command)
    requires Consistent(SALP1, bank) && sub < |bank.subs| && c != PRE_OTHER
    requires DecodeAccess(SALP1, bank, c, sub, row) == PRE_OTHER
    ensures OnlyOpen(bank, Offending(bank.subs, sub)) && Offending(bank.subs, sub) != sub
  {
    var o :| OnlyOpen(bank, o);
    assert OneRow(bank.subs[sub]) && OneRow(bank.subs[o]);
    assert OtherOpen(bank.subs, sub, o);
  }

  /** Where the decoded command goes. */
  function Goes(kind: Kind, bank: Bank, c: Command, sub: nat, row: int): (t: nat)
    requires sub < |bank.subs|
    ensures t < |bank.subs|
  {
    if DecodeAccess(kind, bank, c, sub, row) == PRE_OTHER then Offending(bank.subs, sub) else sub
  }

  /** The bank after the decoded command. */
  function Stepped(kind: Kind, bank: Bank, c: Command, sub: nat, row: int): (r: Bank)
    requires sub < |bank.subs|
    ensures |r.subs| == |bank.subs|
  {
    ApplyToBank(kind, bank, DecodeAccess(kind, bank, c, sub, row), Goes(kind, bank, c, sub, row), row)
  }

  lemma OpenedRow(row: int, state: State)
    requires state != Closed
    ensures OneRow(Subarray(state, {} + {row}))
  {
    assert row in {row} && {} + {row} == {row};
  }

  lemma Salp1Step(bank: Bank, c: Command, sub: nat, row: int)
    requires Consistent(SALP1, bank) && sub < |bank.subs| && (c == RD || c == WR)
    ensures Consistent(SALP1, Stepped(SALP1, bank, c, sub, row))
  {
    var d, r := DecodeAccess(SALP1, bank, c, sub, row), Stepped(SALP1, bank, c, sub, row);
    assert OneRow(bank.subs[sub]);
    if d == ACT {
      OpenedRow(row, Opened);
      assert OnlyOpen(r, sub);
    } else if d == PRE_OTHER {
      OffendingIsTheOpenOne(bank, sub, row, c);
    }
  }

  lemma Salp2BankStep(bank: Bank, c: Command, sub: nat, row: int)
    requires Consistent(SALP2, bank) && sub < |bank.subs| && (c == RD || c == WR)
    ensures Consistent(SALP2, Stepped(SALP2, bank, c, sub, row))
  {
    assert OneRow(bank.subs[sub]);
    OpenedRow(row, Opened);
  }

  lemma MasaStep(bank: Bank, c: Command, sub: nat, row: int)
    requires Consistent(MASA, bank) && sub < |bank.subs| && (c == RD || c == WR)
    ensures Consistent(MASA, Stepped(MASA, bank, c, sub, row))
  {
    var d, subs := DecodeAccess(MASA, bank, c, sub, row), bank.subs;
    assert OneRow(subs[sub]);
    if d == ACT {
      OpenedRow(row, Selected);
      DeselectEffect(subs[sub := Subarray(Selected, subs[sub].rows + {row})], sub, 0);
    } else if d == SASEL {
      DeselectEffect(subs[sub := subs[sub].(state := Selected)], sub, 0);
    }
  }

  /** A decoded command keeps the bank it goes to consistent. */
  lemma BankStep(kind: Kind, bank: Bank, c: Command, sub: nat, row: int)
    requires Consistent(kind, bank) && sub < |bank.subs| && (c == RD || c == WR)
    ensures Consistent(kind, Stepped(kind, bank, c, sub, row)) == true
  {
    match kind
    case SALP1 => Salp1Step(bank, c, sub, row);
    case SALP2 => Salp2BankStep(bank, c, sub, row);
    case MASA => MasaStep(bank, c, sub, row);
  }

  lemma ClosedIsConsistent(kind: Kind, bank: Bank)
    requires Consistent(kind, bank)
    ensures Consistent(kind, CloseAll(kind, bank)) == true
  {
  }

  /** Where a command of a request goes in the rank. */
  function Aimed(k: Rank, c: Command, a: Address): (t: Address)
    requires OnBank(c) ==> a.bank < |k.banks|
  {
    if OnBank(c) then Target(k, c, a) else a
  }

  /** Every scheduled request keeps the rank sound: the invariants of SALP-1, SALP-2 and MASA hold after every command. */
  lemma RankStep(kind: Kind, k: Rank, r: RequestType, a: Address)
    requires Sound(kind, k) && Fits(k, r, a)
    ensures var c := Decode(kind, k, r, a);
            && (OnBank(c) ==> r.Read? || r.Write?)
            && (OnBank(c) ==> Aimed(k, c, a).bank == a.bank && Aimed(k, c, a).sub < |k.banks[a.bank].subs|)
            && Sound(kind, Apply(kind, k, c, Aimed(k, c, a)))
            && Fits(Apply(kind, k, c, Aimed(k, c, a)), r, a)
  {
    var c := Decode(kind, k, r, a);
    var t := Aimed(k, c, a);
    var k1 := Apply(kind, k, c, t);
    if OnBank(c) {
      assert Consistent(kind, k.banks[a.bank]);
      BankStep(kind, k.banks[a.bank], Translate(r), a.sub, a.row);
      assert k1.banks[a.bank] == Stepped(kind, k.banks[a.bank], Translate(r), a.sub, a.row);
    }
    forall b | 0 <= b < |k1.banks| ensures Consistent(kind, k1.banks[b]) == true {
      assert Consistent(kind, k.banks[b]);
      ClosedIsConsistent(kind, k.banks[b]);
    }
  }

  /** One command on behalf of a request. */
  function Serve(kind: Kind, k: Rank, r: RequestType, a: Address): (k': Rank)
    requires Sound(kind, k) && Fits(k, r, a)
    ensures Sound(kind, k') && |k'.banks| == |k.banks|
    ensures forall b :: 0 <= b < |k.banks| ==> |k'.banks[b].subs| == |k.banks[b].subs|
  {
    var c := Decode(kind, k, r, a);
    RankStep(kind, k, r, a);
    Apply(kind, k, c, Aimed(k, c, a))
  }

  datatype Request = Request(kind: RequestType, addr: Address)

  ghost function Run(kind: Kind, k: Rank, qs: seq<Request>): (r: Rank)
    requires forall b :: 0 <= b < |k.banks| ==> k.banks[b].state == Closed
    requires forall b, i :: 0 <= b < |k.banks| && 0 <= i < |k.banks[b].subs| ==> k.banks[b].subs[i] == CLOSED
    requires forall i :: 0 <= i < |qs| ==> Fits(k, qs[i].kind, qs[i].addr)
    ensures Sound(kind, r) && |r.banks| == |k.banks|
    ensures forall b :: 0 <= b < |k.banks| ==> |r.banks[b].subs| == |k.banks[b].subs|
    decreases |qs|
  {
    if qs == [] then k else
    var q := qs[|qs| - 1];
    assert Fits(k, q.kind, q.addr);
    Serve(kind, Run(kind, k, qs[..|qs| - 1]), q.kind, q.addr)
  }

  // ----- progress -----

  /** How many other subarrays of the bank, from an index on, are open. */
  function OthersOpen(subs: seq<Subarray>, me: nat, from: nat := 0): (n: nat)
    requires from <= |subs|
    ensures n <= |subs| - from - (if from <= me < |subs| then 1 else 0)
    ensures n == 0 <==> !exists i :: from <= i < |subs| && OtherOpen(subs, me, i)
    decreases |subs| - from
  {
    if from == |subs| then 0 else
    (if OtherOpen(subs, me, from) then 1 else 0) + OthersOpen(subs, me, from + 1)
  }

  /** The number of commands a read or write still needs from a bank, itself included. */
  function CommandsNeeded(kind: Kind, bank: Bank, sub: nat, row: int): (n: nat)
    requires sub < |bank.subs|
  {
    var s := bank.subs[sub];
    match kind
    case SALP1 => if bank.state == Closed then 2 else if row in s.rows then 1 else 3
    case SALP2 => (if s.state == Closed then 1 else if row in s.rows then 0 else 2) + OthersOpen(bank.subs, sub) + 1
    case MASA => if s.state == Closed then 2 else if row !in s.rows then 3 else if s.state == Opened then 2 else 1
  }

  /** Closing one open other subarray leaves one fewer. */
  lemma {:induction false} CloseOneOther(subs: seq<Subarray>, me: nat, o: nat, from: nat)
    requires OtherOpen(subs, me, o) && from <= |subs|
    ensures OthersOpen(subs[o := CLOSED], me, from) == OthersOpen(subs, me, from) - (if from <= o then 1 else 0)
    decreases |subs| - from
  {
    if from < |subs| { CloseOneOther(subs, me, o, from + 1); }
  }

  /** What happens to the addressed subarray does not change how many others are open. */
  lemma {:induction false} OthersUntouched(subs: seq<Subarray>, me: nat, s: Subarray, from: nat)
    requires me < |subs| && from <= |subs|
    ensures OthersOpen(subs[me := s], me, from) == OthersOpen(subs, me, from)
    decreases |subs| - from
  {
    if from < |subs| { OthersUntouched(subs, me, s, from + 1); }
  }

  /** Every decoded command but the requested one brings the request exactly one command closer. */
  lemma AccessMakesProgress(kind: Kind, bank: Bank, c: Command, sub: nat, row: int)
    requires Consistent(kind, bank) && sub < |bank.subs| && (c == RD || c == WR)
    ensures var d, r := DecodeAccess(kind, bank, c, sub, row), Stepped(kind, bank, c, sub, row);
            && (d == c <==> CommandsNeeded(kind, bank, sub, row) == 1)
            && (d != c ==> CommandsNeeded(kind, r, sub, row) == CommandsNeeded(kind, bank, sub, row) - 1)
  {
    var d := DecodeAccess(kind, bank, c, sub, row);
    var subs := bank.subs;
    assert OneRow(subs[sub]);
    match kind
    case SALP1 =>
    case SALP2 =>
      if d == PRE_OTHER {
        CloseOneOther(subs, sub, Offending(subs, sub), 0);
      } else if d == ACT {
        OthersUntouched(subs, sub, Subarray(Opened, subs[sub].rows + {row}), 0);
      } else if d == PRE {
        OthersUntouched(subs, sub, CLOSED, 0);
      }
    case MASA =>
      if d == ACT {
        DeselectEffect(subs[sub := Subarray(Selected, subs[sub].rows + {row})], sub, 0);
      } else if d == SASEL {
        DeselectEffect(subs[sub := subs[sub].(state := Selected)], sub, 0);
      }
  }

  /** With a powered-up rank: SALP-1 and MASA need at most three commands, SALP-2 at most two more than it has subarrays. */
  lemma CommandsBound(kind: Kind, bank: Bank, sub: nat, row: int)
    requires Consistent(kind, bank) && sub < |bank.subs|
    ensures CommandsNeeded(kind, bank, sub, row) <= if kind.SALP2? then |bank.subs| + 2 else 3
  {
  }

  /** The commands for one request alone, from a powered-up rank, down to the requested one. */
  function Script(kind: Kind, bank: Bank, c: Command, sub: nat, row: int): (cs: seq<Command>)
    requires Consistent(kind, bank) && sub < |bank.subs| && (c == RD || c == WR)
    decreases CommandsNeeded(kind, bank, sub, row)
  {
    var d := DecodeAccess(kind, bank, c, sub, row);
    if d == c then [d] else
    AccessMakesProgress(kind, bank, c, sub, row);
    BankStep(kind, bank, c, sub, row);
    [d] + Script(kind, Stepped(kind, bank, c, sub, row), c, sub, row)
  }

  lemma {:induction false} ScriptReachesRequest(kind: Kind, bank: Bank, c: Command, sub: nat, row: int)
    requires Consistent(kind, bank) && sub < |bank.subs| && (c == RD || c == WR)
    ensures var cs := Script(kind, bank, c, sub, row);
            && |cs| == CommandsNeeded(kind, bank, sub, row) <= (if kind.SALP2? then |bank.subs| + 2 else 3)
            && forall i :: 0 <= i < |cs| ==> (cs[i] == c <==> i == |cs| - 1)
    decreases CommandsNeeded(kind, bank, sub, row)
  {
    CommandsBound(kind, bank, sub, row);
    AccessMakesProgress(kind, bank, c, sub, row);
    var d := DecodeAccess(kind, bank, c, sub, row);
    if d != c {
      BankStep(kind, bank, c, sub, row);
      ScriptReachesRequest(kind, Stepped(kind, bank, c, sub, row), c, sub, row);
    }
  }

  // ----- which commands -----

  /** `n` times the same command. */
  function Repeat(c: Command, n: nat): (cs: seq<Command>) {
    if n == 0 then [] else [c] + Repeat(c, n - 1)
  }

  /** In SALP-2 the row is opened first, and then the `others` open subarrays of the bank are precharged one by one. */
  function Salp2Preparation(s: Subarray, row: int, others: nat): (cs: seq<Command>) {
    (if s.state == Closed then [ACT] else if row in s.rows then [] else [PRE, ACT]) + Repeat(PRE_OTHER, others)
  }

  /** What has to be done before the access, by kind: precharge here or elsewhere, activate, select. */
  function Preparation(kind: Kind, bank: Bank, sub: nat, row: int): (cs: seq<Command>)
    requires sub < |bank.subs|
  {
    var s := bank.subs[sub];
    match kind
    case SALP1 =>
      if bank.state == Closed then [ACT] else if row in s.rows then [] else if s.rows != {} then [PRE, ACT] else [PRE_OTHER, ACT]
    case SALP2 => Salp2Preparation(s, row, OthersOpen(bank.subs, sub))
    case MASA =>
      if s.state == Closed then [ACT] else if row !in s.rows then [PRE, ACT] else if s.state == Opened then [SASEL] else []
  }

  /** What one decoded command does to the preparations: it is the first of them, or the access when there are none. */
  ghost predicate TakesFirst(kind: Kind, bank: Bank, c: Command, sub: nat, row: int)
    requires sub < |bank.subs|
  {
    var d := DecodeAccess(kind, bank, c, sub, row);
    && (d == c <==> Preparation(kind, bank, sub, row) == [])
    && (d != c ==> Preparation(kind, bank, sub, row) == [d] + Preparation(kind, Stepped(kind, bank, c, sub, row), sub, row))
  }

  lemma Salp1TakesFirst(bank: Bank, c: Command, sub: nat, row: int)
    requires Consistent(SALP1, bank) && sub < |bank.subs| && (c == RD || c == WR)
    ensures TakesFirst(SALP1, bank, c, sub, row)
  {
    assert OneRow(bank.subs[sub]);
    if DecodeAccess(SALP1, bank, c, sub, row) == PRE_OTHER {
      OffendingIsTheOpenOne(bank, sub, row, c);
    }
  }

  lemma Salp2TakesFirst(bank: Bank, c: Command, sub: nat, row: int)
    requires Consistent(SALP2, bank) && sub < |bank.subs| && (c == RD || c == WR)
    ensures TakesFirst(SALP2, bank, c, sub, row)
  {
    var s, subs, d := bank.subs[sub], bank.subs, DecodeAccess(SALP2, bank, c, sub, row);
    var n, after := OthersOpen(subs, sub), Stepped(SALP2, bank, c, sub, row);
    assert OneRow(s);
    Salp2Step(bank, c, sub, row);
    var m := OthersOpen(after.subs, sub);
    assert Preparation(SALP2, bank, sub, row) == Salp2Preparation(s, row, n);
    assert Preparation(SALP2, after, sub, row) == Salp2Preparation(after.subs[sub], row, m);
    assert d == PRE_OTHER ==> Repeat(PRE_OTHER, n) == [PRE_OTHER] + Repeat(PRE_OTHER, m);
  }

  /** What a command of SALP-2 changes: the addressed subarray, or one fewer of the others. */
  lemma Salp2Step(bank: Bank, c: Command, sub: nat, row: int)
    requires Consistent(SALP2, bank) && sub < |bank.subs| && (c == RD || c == WR)
    ensures var d, s := DecodeAccess(SALP2, bank, c, sub, row), bank.subs[sub];
            var after := Stepped(SALP2, bank, c, sub, row);
            && OthersOpen(after.subs, sub) == OthersOpen(bank.subs, sub) - (if d == PRE_OTHER then 1 else 0)
            && after.subs[sub] == (if d == ACT then Subarray(Opened, s.rows + {row}) else if d == PRE then CLOSED else s)
            && (d == PRE_OTHER ==> s.state != Closed && row in s.rows && OthersOpen(bank.subs, sub) > 0)
            && (d == c ==> OthersOpen(bank.subs, sub) == 0)
  {
    var d, subs := DecodeAccess(SALP2, bank, c, sub, row), bank.subs;
    assert OneRow(subs[sub]);
    if d == PRE_OTHER {
      CloseOneOther(subs, sub, Offending(subs, sub), 0);
    } else if d == ACT {
      OthersUntouched(subs, sub, Subarray(Opened, subs[sub].rows + {row}), 0);
    } else if d == PRE {
      OthersUntouched(subs, sub, CLOSED, 0);
    }
  }

  lemma MasaTakesFirst(bank: Bank, c: Command, sub: nat, row: int)
    requires Consistent(MASA, bank) && sub < |bank.subs| && (c == RD || c == WR)
    ensures TakesFirst(MASA, bank, c, sub, row)
  {
    var d, subs := DecodeAccess(MASA, bank, c, sub, row), bank.subs;
    assert OneRow(subs[sub]);
    if d == ACT {
      DeselectEffect(subs[sub := Subarray(Selected, subs[sub].rows + {row})], sub, 0);
    } else if d == SASEL {
      DeselectEffect(subs[sub := subs[sub].(state := Selected)], sub, 0);
    }
  }

  lemma PreparationStep(kind: Kind, bank: Bank, c: Command, sub: nat, row: int)
    requires Consistent(kind, bank) && sub < |bank.subs| && (c == RD || c == WR)
    ensures TakesFirst(kind, bank, c, sub, row) == true
  {
    match kind
    case SALP1 => Salp1TakesFirst(bank, c, sub, row);
    case SALP2 => Salp2TakesFirst(bank, c, sub, row);
    case MASA => MasaTakesFirst(bank, c, sub, row);
  }

  lemma {:induction false} ScriptIs(kind: Kind, bank: Bank, c: Command, sub: nat, row: int)
    requires Consistent(kind, bank) && sub < |bank.subs| && (c == RD || c == WR)
    ensures Script(kind, bank, c, sub, row) == Preparation(kind, bank, sub, row) + [c]
    decreases CommandsNeeded(kind, bank, sub, row)
  {
    AccessMakesProgress(kind, bank, c, sub, row);
    PreparationStep(kind, bank, c, sub, row);
    var d := DecodeAccess(kind, bank, c, sub, row);
    if d != c {
      BankStep(kind, bank, c, sub, row);
      ScriptIs(kind, Stepped(kind, bank, c, sub, row), c, sub, row);
    }
  }

  /** The first `n` commands issued for a request that is served again and again. */
  function Issued(kind: Kind, k: Rank, r: RequestType, a: Address, n: nat): (cs: seq<Command>)
    requires Sound(kind, k) && Fits(k, r, a)
    decreases n
  {
    if n == 0 then [] else [Decode(kind, k, r, a)] + Issued(kind, Serve(kind, k, r, a), r, a, n - 1)
  }

  /** On a powered-up rank serving a read or a write is a step at its bank, towards RD for a read and WR for a write. */
  lemma ServesBank(kind: Kind, k: Rank, r: RequestType, a: Address)
    requires Sound(kind, k) && Fits(k, r, a) && (r.Read? || r.Write?) && k.power == PowerUp
    ensures var bank := k.banks[a.bank];
            var c := if r.Read? then RD else WR;
            && Decode(kind, k, r, a) == DecodeAccess(kind, bank, c, a.sub, a.row) && Serve(kind, k, r, a).power == PowerUp
            && Serve(kind, k, r, a).banks[a.bank] == Stepped(kind, bank, c, a.sub, a.row)
  {
  }

  /** A sleeping rank is woken up first. */
  function WakeUp(p: Power): (cs: seq<Command>) {
    match p
    case PowerUp => []
    case ActPowerDown | PrePowerDown => [PDX]
    case SelfRefreshing => [SRX]
  }

  /** All commands before the access: wake-up by power state, then what the kind needs at the bank. */
  function Before(kind: Kind, k: Rank, a: Address): (cs: seq<Command>)
    requires a.bank < |k.banks| && a.sub < |k.banks[a.bank].subs|
  {
    WakeUp(k.power) + Preparation(kind, k.banks[a.bank], a.sub, a.row)
  }

  /** The next command is the first of these, and the others remain; when there are none it is RD for a read and WR for a write. */
  lemma NextCommand(kind: Kind, k: Rank, r: RequestType, a: Address)
    requires Sound(kind, k) && Fits(k, r, a) && (r.Read? || r.Write?)
    ensures Before(kind, k, a) == [] ==> Decode(kind, k, r, a) == if r.Read? then RD else WR
    ensures Before(kind, k, a) != [] ==> Before(kind, k, a) == [Decode(kind, k, r, a)] + Before(kind, Serve(kind, k, r, a), a)
  {
    if k.power == PowerUp {
      NextAwake(kind, k, r, a);
      var k1 := Serve(kind, k, r, a);
      assert Before(kind, k, a) == Preparation(kind, k.banks[a.bank], a.sub, a.row);
      assert Before(kind, k1, a) == Preparation(kind, k1.banks[a.bank], a.sub, a.row);
    } else {
      assert Serve(kind, k, r, a).banks == k.banks;
    }
  }

  lemma NextAwake(kind: Kind, k: Rank, r: RequestType, a: Address)
    requires Sound(kind, k) && Fits(k, r, a) && (r.Read? || r.Write?) && k.power == PowerUp
    ensures Serve(kind, k, r, a).power == PowerUp
    ensures var p := Preparation(kind, k.banks[a.bank], a.sub, a.row);
            && (p == [] ==> Decode(kind, k, r, a) == if r.Read? then RD else WR)
            && (p != [] ==> p == [Decode(kind, k, r, a)] + Preparation(kind, Serve(kind, k, r, a).banks[a.bank], a.sub, a.row))
  {
    assert Consistent(kind, k.banks[a.bank]);
    PreparationStep(kind, k.banks[a.bank], if r.Read? then RD else WR, a.sub, a.row);
    ServesBank(kind, k, r, a);
  }

  /** On rank `k` the commands `p` come before the access, and `cs` are the commands issued up to it. */
  ghost predicate Served(kind: Kind, k: Rank, r: RequestType, a: Address, p: seq<Command>, cs: seq<Command>) {
    && Sound(kind, k) && Fits(k, r, a) && (r.Read? || r.Write?)
    && p == Before(kind, k, a) && cs == Issued(kind, k, r, a, |p| + 1)
  }

  lemma Advance(kind: Kind, k: Rank, r: RequestType, a: Address, p: seq<Command>, cs: seq<Command>) returns (k1: Rank)
    requires Served(kind, k, r, a, p, cs)
    ensures p == [] ==> cs == [if r.Read? then RD else WR]
    ensures p != [] ==> cs != [] && cs[0] == p[0] && Served(kind, k1, r, a, p[1..], cs[1..]) == true
  {
    k1 := Serve(kind, k, r, a);
    IssuedFirst(kind, k, r, a, |p|);
    NextCommand(kind, k, r, a);
  }

  lemma IssuedFirst(kind: Kind, k: Rank, r: RequestType, a: Address, n: nat)
    requires Sound(kind, k) && Fits(k, r, a)
    ensures Sound(kind, Serve(kind, k, r, a)) && Fits(Serve(kind, k, r, a), r, a)
    ensures Issued(kind, k, r, a, n + 1) == [Decode(kind, k, r, a)] + Issued(kind, Serve(kind, k, r, a), r, a, n)
    ensures Issued(kind, k, r, a, 0) == [] && Issued(kind, Serve(kind, k, r, a), r, a, 0) == []
  {
  }

  /** Serving a read or a write again and again issues all of these, then RD for a read and WR for a write. */
  lemma {:induction false} IssuedIs(kind: Kind, k: Rank, r: RequestType, a: Address, p: seq<Command>, cs: seq<Command>)
    requires Served(kind, k, r, a, p, cs) == true
    ensures cs == p + [if r.Read? then RD else WR]
    decreases |p|
  {
    var k1 := Advance(kind, k, r, a, p, cs);
    if p == [] {
    } else {
      IssuedIs(kind, k1, r, a, p[1..], cs[1..]);
    }
  }

  // ----- refresh -----

  /** Some subarray of the rank holds a row. */
  ghost predicate RowSomewhere(k: Rank) {
    exists b, i :: 0 <= b < |k.banks| && 0 <= i < |k.banks[b].subs| && k.banks[b].subs[i].rows != {}
  }

  lemma OpenIsRow(kind: Kind, k: Rank)
    requires Sound(kind, k)
    ensures AnyOpen(kind, k) <==> RowSomewhere(k)
  {
    if RowSomewhere(k) {
      var b, i :| 0 <= b < |k.banks| && 0 <= i < |k.banks[b].subs| && k.banks[b].subs[i].rows != {};
      assert Consistent(kind, k.banks[b]) && OneRow(k.banks[b].subs[i]);
    }
    if AnyOpen(kind, k) {
      if kind.SALP1? {
        var b :| 0 <= b < |k.banks| && k.banks[b].state != Closed;
        assert Consistent(kind, k.banks[b]);
        var o :| OnlyOpen(k.banks[b], o);
        assert OneRow(k.banks[b].subs[o]);
      } else {
        var b, i :| 0 <= b < |k.banks| && 0 <= i < |k.banks[b].subs| && k.banks[b].subs[i].state != Closed;
        assert Consistent(kind, k.banks[b]) && OneRow(k.banks[b].subs[i]);
      }
    }
  }

  /** A refresh goes out only when no subarray of the rank holds a row; else all are precharged, and it goes out next. */
  lemma RefreshInTwo(kind: Kind, k: Rank, a: Address)
    requires Sound(kind, k)
    ensures Decode(kind, k, Refresh, a) == if RowSomewhere(k) then PRER else REF
    ensures RowSomewhere(k) ==> Decode(kind, Serve(kind, k, Refresh, a), Refresh, a) == REF && !RowSomewhere(Serve(kind, k, Refresh, a))
  {
    OpenIsRow(kind, k);
    OpenIsRow(kind, Serve(kind, k, Refresh, a));
  }
}
