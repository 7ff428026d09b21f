/** The table that gives each radio's 16-byte unique ID a circuit number, and its copy in EEPROM. */
module VcAddressTable {
  import opened Basics

  const UNIQUE_ID_BYTES := 16
  const VC_UNASSIGNED := -3
  const VC_SERVER := 0
  const NVM_ERASE_VALUE: byte := 0xff

  type Id = s: seq<byte> | |s| == UNIQUE_ID_BYTES witness seq(UNIQUE_ID_BYTES, _ => 0)

  const ERASED_ID: Id :=
    [0xff, 0xff, 0xff, 0xff, 0xff, 0xff, 0xff, 0xff, 0xff, 0xff, 0xff, 0xff, 0xff, 0xff, 0xff, 0xff]
  const BLANK_ID: Id :=
    [0, 0, 0, 0, 0, 0, 0, 0, 0, 0, 0, 0, 0, 0, 0, 0]

  datatype Entry = Entry(id: Id, valid: bool)

  type Entries = s: seq<Entry> | |s| == MAX_VC witness seq(MAX_VC, _ => Entry(BLANK_ID, false))
  type Ids = s: seq<Id> | |s| == MAX_VC witness seq(MAX_VC, _ => ERASED_ID)

  /** The RAM table and the 32 IDs in EEPROM. */
  datatype Store = Store(entries: Entries, memory: Ids)

  // ---------------------------------------------------------------------
  // Specification
  // ---------------------------------------------------------------------

  predicate Holds(t: Entries, i: int, id: Id) {
    0 <= i < MAX_VC && t[i].valid && t[i].id == id
  }

  ghost predicate Known(t: Entries, id: Id) {
    exists i :: Holds(t, i, id)
  }

  /** i is the first number in use (`valid`) or not in use. */
  ghost predicate IsFirst(t: Entries, i: int, valid: bool) {
    0 <= i < MAX_VC && t[i].valid == valid && forall j :: 0 <= j < i ==> t[j].valid != valid
  }

  function Save(s: Store, vc: nat, id: Id): Store
    requires vc < MAX_VC
  {
    Store(s.entries[vc := Entry(id, true)], s.memory[vc := id])
  }

  function Erase(s: Store, vc: nat): Store
    requires vc < MAX_VC
  {
    Store(s.entries[vc := Entry(ERASED_ID, false)], s.memory[vc := ERASED_ID])
  }

  /** Slots 1 to n - 1 that are set have been erased. */
  function Cleared(s: Store, n: nat): (r: Store)
    requires 1 <= n <= MAX_VC
    ensures forall i :: 1 <= i < n ==>
      && r.memory[i] == ERASED_ID
      && r.entries[i] == ClearedEntry(s.entries[i], s.memory[i])
    ensures forall i :: 0 <= i < MAX_VC && !(1 <= i < n) ==> r.memory[i] == s.memory[i] && r.entries[i] == s.entries[i]
  {
    if n == 1 then s else ClearedSlot(Cleared(s, n - 1), n - 1)
  }

  function ClearedEntry(e: Entry, saved: Id): Entry {
    if saved != ERASED_ID then Entry(ERASED_ID, false) else e
  }

  function ClearedSlot(s: Store, vc: nat): Store
    requires vc < MAX_VC
  {
    if s.memory[vc] != ERASED_ID then Erase(s, vc) else s
  }

  /** A client has been told to become a server: the table starts over with its own ID as number 0. */
  function Rewritten(s: Store, own: Id): Store {
    Save(Cleared(s, MAX_VC), 0, own)
  }

  /** All numbers are free again. */
  function AllErased(s: Store, n: nat): (r: Store)
    requires n <= MAX_VC
    ensures forall i :: 0 <= i < n ==> r.memory[i] == ERASED_ID && r.entries[i] == Entry(ERASED_ID, false)
  {
    if n == 0 then s else Erase(AllErased(s, n - 1), n - 1)
  }

  /** RAM after a reset; only a server reads its EEPROM copy back. */
  function Reload(s: Store, server: bool): Store {
    Store(Loaded(s.memory, server), s.memory)
  }

  function LoadedEntry(id: Id, server: bool): Entry {
    if server && id != ERASED_ID then Entry(id, true) else Entry(BLANK_ID, false)
  }

  function Loaded(memory: seq<Id>, server: bool): (t: seq<Entry>)
    ensures |t| == |memory|
    ensures forall i :: 0 <= i < |t| ==> t[i] == LoadedEntry(memory[i], server)
  {
    if memory == [] then [] else [LoadedEntry(memory[0], server)] + Loaded(memory[1..], server)
  }

  /** Source addresses a received frame may carry. */
  predicate Address(src: int) {
    0 <= src < MAX_VC || src == VC_UNASSIGNED
  }

  /** `r` is the answer of `vcIdToAddressByte` and `s'` the store it leaves. */
  ghost predicate Answers(s: Store, server: bool, src: int, id: Id, s': Store, r: int) {
    if Known(s.entries, id) then
      Holds(s.entries, r, id) && s' == s
    else if src == VC_UNASSIGNED then
      if !server then r == -1 && s' == s
      else if forall i :: 0 <= i < MAX_VC ==> s.entries[i].valid then r == -2 && s' == s
      else IsFirst(s.entries, r, false) && s' == Save(s, r, id)
    else
      if 0 <= src < MAX_VC && !s.entries[src].valid then r == src && s' == Save(s, src, id)
      else r == -3 && s' == s
  }

  /** The 32 consecutive IDs in the ID area of the EEPROM. */
  function IdsIn(area: seq<byte>): Ids
    requires |area| == MAX_VC * UNIQUE_ID_BYTES
  {
    seq(MAX_VC, i requires 0 <= i < MAX_VC => area[i * UNIQUE_ID_BYTES..(i + 1) * UNIQUE_ID_BYTES])
  }

  // ---------------------------------------------------------------------
  // The firmware's functions
  // ---------------------------------------------------------------------

  class AddressTable {
    const list: array<Entry>
    const eeprom: array<byte>
    const offset: nat                // NVM_UNIQUE_ID_OFFSET
    var server: bool                 // settings.server

    ghost predicate Valid()
      reads this
    {
      list.Length == MAX_VC && eeprom.Length == offset + MAX_VC * UNIQUE_ID_BYTES
    }

    /** `nvmVcOffset`. */
    function VcOffset(vc: nat): (r: nat)
      requires Valid() && vc < MAX_VC
      reads this
      ensures offset <= r <= r + UNIQUE_ID_BYTES <= eeprom.Length
    {
      offset + vc * UNIQUE_ID_BYTES
    }

    function Slot(vc: nat): (id: Id)
      requires Valid() && vc < MAX_VC
      reads this, eeprom
      ensures id == IdsIn(eeprom[offset..])[vc]
    {
      eeprom[VcOffset(vc)..VcOffset(vc) + UNIQUE_ID_BYTES]
    }

    ghost function View(): Store
      requires Valid()
      reads this, list, eeprom
    {
      Store(list[..], IdsIn(eeprom[offset..]))
    }

    /** Power up: blank RAM, and a server loads the IDs it handed out before. */
    constructor (eeprom: array<byte>, offset: nat, server: bool)
      requires eeprom.Length == offset + MAX_VC * UNIQUE_ID_BYTES
      ensures Valid() && fresh(list) && this.eeprom == eeprom && this.server == server
      ensures forall s: Store :: s.memory == View().memory ==> View() == Reload(s, server)
    {
      list := new Entry[MAX_VC](_ => Entry(BLANK_ID, false));
      this.eeprom := eeprom;
      this.offset := offset;
      this.server := server;
      new;
      if server {
        for index := 0 to MAX_VC
          invariant this.server == server
          invariant forall i :: index <= i < MAX_VC ==> list[i] == Entry(BLANK_ID, false)
          invariant forall i :: 0 <= i < index ==>
            list[i] == LoadedEntry(Slot(i), true)
        {
          LoadVcUniqueId(index);
        }
      }
    }

    /** `nvmIsVcUniqueIdSet`: some byte differs from the erase value. */
    method IsVcUniqueIdSet(vc: nat) returns (isSet: bool)
      requires Valid() && vc < MAX_VC
      ensures isSet <==> Slot(vc) != ERASED_ID
    {
      var id := Slot(vc);
      for index := 0 to UNIQUE_ID_BYTES
        invariant forall k :: 0 <= k < index ==> id[k] == NVM_ERASE_VALUE
      {
        if id[index] != NVM_ERASE_VALUE {
          return true;
        }
      }
      assert id == ERASED_ID;
      return false;
    }

    /** `nvmLoadVcUniqueId`. */
    method LoadVcUniqueId(vc: nat)
      requires Valid() && vc < MAX_VC
      modifies list
      ensures list[..] == old(list[..])[vc := if Slot(vc) != ERASED_ID then Entry(Slot(vc), true) else old(list[vc])]
    {
      var isSet := IsVcUniqueIdSet(vc);
      if isSet {
        list[vc] := Entry(Slot(vc), true);
      }
    }

    /** `EEPROM.put` of one ID. */
    method PutId(vc: nat, id: Id)
      requires Valid() && vc < MAX_VC
      modifies eeprom
      ensures IdsIn(eeprom[offset..]) == IdsIn(old(eeprom[offset..]))[vc := id]
      ensures eeprom[..offset] == old(eeprom[..offset])
    {
      ghost var before := eeprom[offset..];
      var at := VcOffset(vc);
      forall k | 0 <= k < UNIQUE_ID_BYTES {
        eeprom[at + k] := id[k];
      }
      WrittenId(before, eeprom[offset..], vc, id);
    }

    /** `nvmSaveUniqueId`: no other slot and nothing below the ID area changes. */
    method SaveUniqueId(vc: nat, id: Id)
      requires Valid() && vc < MAX_VC
      modifies list, eeprom
      ensures Valid() && View() == Save(old(View()), vc, id)
      ensures eeprom[..offset] == old(eeprom[..offset])
    {
      PutId(vc, id);
      list[vc] := Entry(id, true);
    }

    /** `nvmEraseUniqueId`. */
    method EraseUniqueId(vc: nat)
      requires Valid() && vc < MAX_VC
      modifies list, eeprom
      ensures Valid() && View() == Erase(old(View()), vc)
      ensures eeprom[..offset] == old(eeprom[..offset])
    {
      SaveUniqueId(vc, ERASED_ID);
      list[vc] := Entry(ERASED_ID, false);
    }

    /** `valServer`, when the new value is a valid one. */
    method SetServer(settingValue: bool, myUniqueId: Id)
      requires Valid()
      modifies list, eeprom
      ensures Valid()
      ensures View() == if settingValue && !server then Rewritten(old(View()), myUniqueId) else old(View())
      ensures eeprom[..offset] == old(eeprom[..offset])
    {
      if !server && settingValue {
        for vcIndex := 1 to MAX_VC
          invariant View() == Cleared(old(View()), vcIndex) && eeprom[..offset] == old(eeprom[..offset])
        {
          var isSet := IsVcUniqueIdSet(vcIndex);
          if isSet {
            EraseUniqueId(vcIndex);
          }
        }
        SaveUniqueId(VC_SERVER, myUniqueId);
      }
    }

    /** The ID table part of the command that restores the defaults. */
    method RestoreDefaults()
      requires Valid()
      modifies list, eeprom
      ensures Valid() && View() == AllErased(old(View()), MAX_VC)
      ensures eeprom[..offset] == old(eeprom[..offset])
    {
      for vcIndex := 0 to MAX_VC
        invariant View() == AllErased(old(View()), vcIndex) && eeprom[..offset] == old(eeprom[..offset])
      {
        EraseUniqueId(vcIndex);
      }
    }

    /** `vcIdToAddressByte`. */
    method IdToAddressByte(srcAddr: int, id: Id) returns (address: int)
      requires Valid() && Address(srcAddr)
      modifies list, eeprom
      ensures Valid() && Answers(old(View()), server, srcAddr, id, View(), address)
      ensures eeprom[..offset] == old(eeprom[..offset])
    {
      ghost var before := View();
      for index := 0 to MAX_VC
        invariant View() == before && eeprom[..offset] == old(eeprom[..offset])
        invariant forall i :: 0 <= i < index ==> !Holds(before.entries, i, id)
      {
        if list[index].valid && list[index].id == id {
          assert Holds(before.entries, index, id);
          return index;
        }
      }
      if srcAddr == VC_UNASSIGNED && !server {
        return -1;
      }
      var vcIndex := srcAddr;
      if srcAddr == VC_UNASSIGNED {
        vcIndex := 0;
        while vcIndex < MAX_VC && list[vcIndex].valid
          invariant 0 <= vcIndex <= MAX_VC
          invariant forall i :: 0 <= i < vcIndex ==> list[i].valid
        {
          vcIndex := vcIndex + 1;
        }
        if vcIndex >= MAX_VC {
          return -2;
        }
      }
      if list[vcIndex].valid {
        return -3;
      }
      SaveUniqueId(vcIndex, id);
      return vcIndex;
    }
  }

  /** Writing one slot changes no other: slots do not overlap. */
  lemma WrittenId(area: seq<byte>, area': seq<byte>, vc: nat, id: Id)
    requires |area| == |area'| == MAX_VC * UNIQUE_ID_BYTES && vc < MAX_VC
    requires forall k :: 0 <= k < |area| ==>
      area'[k] == if 0 <= k - vc * UNIQUE_ID_BYTES < UNIQUE_ID_BYTES then id[k - vc * UNIQUE_ID_BYTES] else area[k]
    ensures IdsIn(area') == IdsIn(area)[vc := id]
  {
    assert forall i :: 0 <= i < MAX_VC ==> IdsIn(area')[i] == IdsIn(area)[vc := id][i];
  }

  // ---------------------------------------------------------------------
  // Runs
  // ---------------------------------------------------------------------

  /** The table with the three copies of the server setting: in use, edited in command mode, and recorded in EEPROM. */
  datatype Node = Node(store: Store, server: bool, wanted: bool, recorded: bool)

  datatype Operation =
    | Translate(src: int, id: Id)
    | EraseOne(vc: nat)
    | EnterCommandMode
    | SetServer(value: bool)
    | ExitCommandMode(record: bool)
    | RestoreDefaults
    | Reboot

  predicate Allowed(op: Operation) {
    && (op.Translate? ==> Address(op.src))
    && (op.EraseOne? ==> op.vc < MAX_VC)
  }

  /** What an operation other than Translate makes of the node of the radio with this ID. */
  function After(n: Node, own: Id, op: Operation): Node
    requires Allowed(op) && !op.Translate?
  {
    match op
    case EraseOne(vc) => n.(store := Erase(n.store, vc))
    case EnterCommandMode => n.(wanted := n.server)
    case SetServer(value) =>
      n.(wanted := value, store := if value && !n.server then Rewritten(n.store, own) else n.store)
    case ExitCommandMode(record) => n.(server := n.wanted, recorded := if record then n.wanted else n.recorded)
    case RestoreDefaults => Node(AllErased(n.store, MAX_VC), false, false, false)
    case Reboot => Node(Reload(n.store, n.recorded), n.recorded, n.recorded, n.recorded)
  }

  /** One operation takes `n` to `n'`; the answer matters only for Translate. */
  ghost predicate Step(n: Node, own: Id, op: Operation, n': Node, answer: int)
    requires Allowed(op)
  {
    if op.Translate? then
      Answers(n.store, n.server, op.src, op.id, n'.store, answer) && n' == n.(store := n'.store)
    else n' == After(n, own, op)
  }

  const BLANK := Store(seq(MAX_VC, _ => Entry(BLANK_ID, false)), seq(MAX_VC, _ => ERASED_ID))

  predicate IsBlank(s: Store) {
    forall i :: 0 <= i < MAX_VC ==> s.entries[i] == Entry(BLANK_ID, false) && s.memory[i] == ERASED_ID
  }

  /** A run from an erased radio through `nodes`, one more than operations; a radio's own ID is not the erased one. */
  ghost predicate Run(own: Id, ops: seq<Operation>, answers: seq<int>, nodes: seq<Node>) {
    && own != ERASED_ID
    && |answers| == |ops| && |nodes| == |ops| + 1 && IsBlank(nodes[0].store)
    && !nodes[0].server && !nodes[0].wanted && !nodes[0].recorded
    && forall k :: 0 <= k < |ops| ==> Allowed(ops[k]) && Step(nodes[k], own, ops[k], nodes[k + 1], answers[k])
  }

  ghost predicate Distinct(t: Entries) {
    forall i, j :: 0 <= i < j < MAX_VC && t[i].valid && t[j].valid ==> t[i].id != t[j].id
  }

  /** Every ID in use is in EEPROM under its number. */
  ghost predicate Saved(s: Store) {
    forall i :: 0 <= i < MAX_VC && s.entries[i].valid ==> s.memory[i] == s.entries[i].id
  }

  /** EEPROM holds an ID only for numbers in use. */
  ghost predicate NothingElse(s: Store) {
    forall i :: 0 <= i < MAX_VC && !s.entries[i].valid ==> s.memory[i] == ERASED_ID
  }

  /** Whoever is a server, is about to become one, or would boot as one has nothing in EEPROM but its table. */
  ghost predicate Inv(n: Node) {
    Distinct(n.store.entries) && Saved(n.store) && (n.server || n.wanted || n.recorded ==> NothingElse(n.store))
  }

  lemma TranslateInv(s: Store, server: bool, src: int, id: Id, s': Store, answer: int)
    requires Distinct(s.entries) && Saved(s) && Address(src) && Answers(s, server, src, id, s', answer)
    ensures Distinct(s'.entries) && Saved(s') && (NothingElse(s) ==> NothingElse(s'))
  {
    if !Known(s.entries, id) {
      forall i | 0 <= i < MAX_VC && s.entries[i].valid ensures s.entries[i].id != id {
        assert !Holds(s.entries, i, id);
      }
    }
  }

  lemma ReloadInv(s: Store, server: bool)
    requires Distinct(s.entries) && Saved(s) && (server ==> NothingElse(s))
    ensures var r := Reload(s, server); Distinct(r.entries) && Saved(r) && (server ==> NothingElse(r))
  {
    if server {
      var r := Reload(s, server);
      forall i, j | 0 <= i < j < MAX_VC && r.entries[i].valid && r.entries[j].valid
        ensures r.entries[i].id != r.entries[j].id
      {
        assert s.entries[i].valid && s.entries[j].valid;
      }
    }
  }

  lemma RewrittenInv(s: Store, own: Id)
    requires Distinct(s.entries) && Saved(s) && own != ERASED_ID
    ensures var r := Rewritten(s, own); Distinct(r.entries) && Saved(r) && NothingElse(r)
  {
  }

  lemma StepInv(n: Node, own: Id, op: Operation, n': Node, answer: int)
    requires Inv(n) && own != ERASED_ID && Allowed(op) && Step(n, own, op, n', answer)
    ensures Inv(n')
  {
    match op
    case Translate(src, id) => TranslateInv(n.store, n.server, src, id, n'.store, answer);
    case SetServer(value) => if value && !n.server { RewrittenInv(n.store, own); }
    case Reboot => ReloadInv(n.store, n.recorded);
    case _ =>
  }

  /** Every node along every run, with servers becoming clients and clients servers, keeps the invariant. */
  lemma {:induction false} RunInv(own: Id, ops: seq<Operation>, answers: seq<int>, nodes: seq<Node>, k: nat)
    requires Run(own, ops, answers, nodes) && k <= |ops|
    ensures Inv(nodes[k])
  {
    if k > 0 {
      RunInv(own, ops, answers, nodes, k - 1);
      StepInv(nodes[k - 1], own, ops[k - 1], nodes[k], answers[k - 1]);
    }
  }

  /** No two numbers in use ever belong to the same ID, so the answer for a known ID is determined. */
  lemma NumbersAreUnique(own: Id, ops: seq<Operation>, answers: seq<int>, nodes: seq<Node>, k: nat, i: int, j: int, id: Id)
    requires Run(own, ops, answers, nodes) && k <= |ops|
    requires Holds(nodes[k].store.entries, i, id) && Holds(nodes[k].store.entries, j, id)
    ensures i == j
  {
    RunInv(own, ops, answers, nodes, k);
  }

  /** Operation `op` does not take number vc away from `id`. */
  predicate Spares(n: Node, op: Operation, vc: int, id: Id) {
    && (op.EraseOne? ==> op.vc != vc)
    && (op.SetServer? ==> n.server || !op.value)
    && !op.RestoreDefaults?
    && (op.Reboot? ==> n.recorded && id != ERASED_ID)
  }

  lemma SparedStep(n: Node, own: Id, op: Operation, n': Node, answer: int, vc: int, id: Id)
    requires Inv(n) && Allowed(op) && Step(n, own, op, n', answer)
    requires Holds(n.store.entries, vc, id) && Spares(n, op, vc, id)
    ensures Holds(n'.store.entries, vc, id)
  {
  }

  /**
   An assigned ID keeps its number through every run that does not erase it or
   turn a client into a server, and through restarts of a server unless the ID is
   all 0xFF; whoever asks for it, under any source address, is told that number.
   */
  lemma {:induction false} AssignedKeepsNumber(own: Id, ops: seq<Operation>, answers: seq<int>, nodes: seq<Node>,
                                               vc: int, id: Id, first: nat, last: nat)
    requires Run(own, ops, answers, nodes) && first <= last <= |ops|
    requires Holds(nodes[first].store.entries, vc, id)
    requires forall k :: first <= k < last ==> Spares(nodes[k], ops[k], vc, id)
    ensures Holds(nodes[last].store.entries, vc, id)
    ensures last < |ops| && ops[last].Translate? && ops[last].id == id ==> answers[last] == vc && nodes[last + 1] == nodes[last]
    decreases last
  {
    if first < last {
      AssignedKeepsNumber(own, ops, answers, nodes, vc, id, first, last - 1);
      RunInv(own, ops, answers, nodes, last - 1);
      SparedStep(nodes[last - 1], own, ops[last - 1], nodes[last], answers[last - 1], vc, id);
    }
    if last < |ops| && ops[last].Translate? && ops[last].id == id {
      assert Known(nodes[last].store.entries, id) by { assert Holds(nodes[last].store.entries, vc, id); }
      assert Step(nodes[last], own, ops[last], nodes[last + 1], answers[last]);
      NumbersAreUnique(own, ops, answers, nodes, last, vc, answers[last], id);
    }
  }

  /** "Too many clients" is answered exactly when an unknown radio asks the server and all 32 numbers are in use by 32 different IDs. */
  lemma FullTableExactly(own: Id, ops: seq<Operation>, answers: seq<int>, nodes: seq<Node>, k: nat)
    requires Run(own, ops, answers, nodes) && k < |ops| && ops[k].Translate?
    ensures var t, t' := nodes[k].store.entries, nodes[k + 1].store.entries;
            && (answers[k] == -2 <==>
                  && nodes[k].server && ops[k].src == VC_UNASSIGNED && !Known(t, ops[k].id)
                  && (forall i :: 0 <= i < MAX_VC ==> t[i].valid))
            && (answers[k] == -2 ==> Distinct(t))
            && (0 <= answers[k] < MAX_VC <==> Known(t', ops[k].id))
            && (0 <= answers[k] < MAX_VC ==> Holds(t', answers[k], ops[k].id))
  {
    RunInv(own, ops, answers, nodes, k);
    assert Step(nodes[k], own, ops[k], nodes[k + 1], answers[k]);
    if 0 <= answers[k] < MAX_VC { assert Holds(nodes[k + 1].store.entries, answers[k], ops[k].id); }
  }

  /** The IDs in use and their numbers, which is all the rest of the firmware reads. */
  ghost predicate SameNumbers(t: Entries, u: Entries) {
    forall i :: 0 <= i < MAX_VC ==> t[i].valid == u[i].valid && (t[i].valid ==> t[i].id == u[i].id)
  }

  /** Whenever a radio would boot as a server, the boot restores all numbers if and only if no ID in use is all 0xFF. */
  lemma RestartReproducesExactly(own: Id, ops: seq<Operation>, answers: seq<int>, nodes: seq<Node>, k: nat)
    requires Run(own, ops, answers, nodes) && k <= |ops| && nodes[k].recorded
    ensures SameNumbers(After(nodes[k], own, Reboot).store.entries, nodes[k].store.entries)
            <==> !Known(nodes[k].store.entries, ERASED_ID)
  {
    RunInv(own, ops, answers, nodes, k);
    var t := nodes[k].store.entries;
    if Known(t, ERASED_ID) {
      var i :| Holds(t, i, ERASED_ID);
      assert !Reload(nodes[k].store, true).entries[i].valid;
    } else {
      forall i | 0 <= i < MAX_VC && t[i].valid ensures t[i].id != ERASED_ID {
        assert !Holds(t, i, ERASED_ID);
      }
    }
  }

  /** Such an ID can be assigned in a run, as number 1 of a new server, and the restart then forgets it. */
  lemma ErasedIdIsForgotten(own: Id) returns (ops: seq<Operation>, answers: seq<int>, nodes: seq<Node>)
    requires own != ERASED_ID
    ensures Run(own, ops, answers, nodes) && |ops| == 5 && ops[3] == Translate(VC_UNASSIGNED, ERASED_ID) && ops[4] == Reboot
    ensures answers[3] == 1 && Holds(nodes[4].store.entries, 1, ERASED_ID)
    ensures !Known(nodes[5].store.entries, ERASED_ID)
  {
    var begun := Rewritten(BLANK, own);
    var taken := Save(begun, 1, ERASED_ID);
    assert forall i :: !Holds(begun.entries, i, ERASED_ID);
    assert IsFirst(begun.entries, 1, false);
    assert forall i :: !Holds(Reload(taken, true).entries, i, ERASED_ID);
    ops := [EnterCommandMode, SetServer(true), ExitCommandMode(true), Translate(VC_UNASSIGNED, ERASED_ID), Reboot];
    answers := [0, 0, 0, 1, 0];
    var client := Node(BLANK, false, false, false);
    var told, server := Node(begun, false, true, false), Node(begun, true, true, true);
    nodes := [client, client, told, server, server.(store := taken), Node(Reload(taken, true), true, true, true)];
    assert Step(server, own, ops[3], nodes[4], 1);
    forall k | 0 <= k < 5 ensures Allowed(ops[k]) && Step(nodes[k], own, ops[k], nodes[k + 1], answers[k]) {
      if k == 0 {} else if k == 1 {} else if k == 2 {} else if k == 3 {} else {}
    }
  }

  /** A client writes EEPROM too but does not read it back at boot, so its copy may hold one ID twice. */
  lemma ClientCopyMayRepeat(own: Id, id: Id) returns (ops: seq<Operation>, answers: seq<int>, nodes: seq<Node>)
    requires id != ERASED_ID && own != ERASED_ID
    ensures Run(own, ops, answers, nodes)
    ensures var memory := nodes[|ops|].store.memory; memory[3] == memory[5] == id
  {
    var first := Save(BLANK, 3, id);
    var restarted := Reload(first, false);
    var second := Save(restarted, 5, id);
    assert forall i :: !Holds(BLANK.entries, i, id);
    assert forall i :: !Holds(restarted.entries, i, id);
    ops, answers := [Translate(3, id), Reboot, Translate(5, id)], [3, 0, 5];
    var n0, n1 := Node(BLANK, false, false, false), Node(first, false, false, false);
    var n2, n3 := Node(restarted, false, false, false), Node(second, false, false, false);
    nodes := [n0, n1, n2, n3];
    assert Step(n0, own, ops[0], n1, 3);
    assert Step(n1, own, ops[1], n2, 0);
    assert Step(n2, own, ops[2], n3, 5);
    forall k | 0 <= k < 3 ensures Allowed(ops[k]) && Step(nodes[k], own, ops[k], nodes[k + 1], answers[k]) {
      if k == 0 {} else if k == 1 {} else {}
    }
  }

  /** What makes that harmless: after the rewrite a boot as server starts with the radio's own ID alone, whatever the EEPROM held. */
  lemma RewriteForgetsCopies(s: Store, own: Id)
    requires own != ERASED_ID
    ensures var t := Reload(Rewritten(s, own), true).entries;
            && Distinct(t) && Holds(t, VC_SERVER, own)
            && forall i :: 1 <= i < MAX_VC ==> !t[i].valid
  {
  }
}
