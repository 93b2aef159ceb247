/** What a guest and its host say to each other during one call (`crates/execution/src/wasm`), written
    down as a list of loads and stores: the run of a guest is the one conversation the guest itself asks
    for, loads answer the last store, and the last stores are what the contract keeps. */
module HostLog {
  import opened Common
  import opened Staking
  import opened Ledger
  import Codec

  datatype HostEvent = Loaded(slot: u32, answer: int) | Stored(slot: u32, value: int)

  /** What the guest gets back: the word it loaded, or nothing of interest. */
  function Answers(log: seq<HostEvent>): (a: seq<int>)
    ensures |a| == |log|
  {
    seq(|log|, i requires 0 <= i < |log| => if log[i].Loaded? then log[i].answer else 0)
  }

  /** The value last stored in a slot. */
  ghost function LastStore(log: seq<HostEvent>, slot: u32): Option<int> {
    if log == [] then None
    else
      var last := log[|log| - 1];
      if last.Stored? && last.slot == slot then Some(last.value) else LastStore(log[..|log| - 1], slot)
  }

  /** What a slot of contract `c` holds after a conversation that began with `storage`. */
  ghost function Holds(env: Env, storage: map<SlotKey, Bytes>, log: seq<HostEvent>, c: Address, slot: u32)
    : Option<Bytes>
  {
    match LastStore(log, slot)
    case Some(v) => Some(env.bytesOf(v))
    case None => At(storage, SlotKey(c, slot))
  }

  /** A slot read as a word; one that holds nothing reads as zero. */
  function WordIn(env: Env, held: Option<Bytes>): int {
    if held.Some? then env.wordOf(held.value) else 0
  }

  /** What the guest wants after a conversation. */
  function Wants(env: Env, code: Bytes, log: seq<HostEvent>): GuestStep {
    env.guest(code, Answers(log))
  }

  /** Every event is what the guest asked for at that point, and every load answers what the slot holds. */
  ghost predicate Talk(env: Env, code: Bytes, c: Address, storage: map<SlotKey, Bytes>, log: seq<HostEvent>) {
    forall i :: 0 <= i < |log| ==>
      match log[i]
      case Loaded(slot, answer) =>
        && Wants(env, code, log[..i]).call == Load(slot)
        && answer == WordIn(env, Holds(env, storage, log[..i], c, slot))
      case Stored(slot, value) => Wants(env, code, log[..i]).call == Store(slot, value)
  }

  /** Fuel burned by a conversation: one for each event, and what the guest spends before it. */
  ghost function Fuel(env: Env, code: Bytes, log: seq<HostEvent>): nat {
    if log == [] then 0
    else Fuel(env, code, log[..|log| - 1]) + 1 + Wants(env, code, log[..|log| - 1]).cost
  }

  /** A conversation is over, and how. */
  ghost predicate Over(env: Env, code: Bytes, fuel: nat, log: seq<HostEvent>, error: Option<RejectReason>) {
    var next := Wants(env, code, log);
    && Fuel(env, code, log) <= fuel
    && if fuel < Fuel(env, code, log) + 1 + next.cost then error == Some(WasmGas)
       else match next.call
            case Finish => error == None
            case Trap => error == Some(WasmInvalid)
            case Reenter => error == Some(WasmReentrancy)
            case _ => false
  }

  ghost predicate WholeTalk(env: Env, code: Bytes, c: Address, storage: map<SlotKey, Bytes>, fuel: nat,
                            log: seq<HostEvent>, error: Option<RejectReason>) {
    Talk(env, code, c, storage, log) && Over(env, code, fuel, log, error)
  }

  function Slots(log: seq<HostEvent>, c: Address): set<SlotKey> {
    set e | e in log :: SlotKey(c, e.slot)
  }

  function StoredSlots(log: seq<HostEvent>, c: Address): set<SlotKey> {
    set e | e in log && e.Stored? :: SlotKey(c, e.slot)
  }

  /** A run that has had this conversation so far. */
  ghost predicate Follows(env: Env, c: Address, storage: map<SlotKey, Bytes>, log: seq<HostEvent>, at: GuestRun) {
    && (forall k :: At(at.storage, k)
                 == if k.contract == c then Holds(env, storage, log, c, k.slot) else At(storage, k))
    && at.readSet == Slots(log, c) && at.writeSet == StoredSlots(log, c)
  }

  lemma Extend(log: seq<HostEvent>, e: HostEvent, c: Address)
    ensures Answers(log + [e]) == Answers(log) + [if e.Loaded? then e.answer else 0]
    ensures Slots(log + [e], c) == Slots(log, c) + {SlotKey(c, e.slot)}
    ensures StoredSlots(log + [e], c) == StoredSlots(log, c) + if e.Stored? then {SlotKey(c, e.slot)} else {}
    ensures forall slot :: LastStore(log + [e], slot)
                        == if e.Stored? && e.slot == slot then Some(e.value) else LastStore(log, slot)
  {
    assert (log + [e])[..|log|] == log;
    assert forall x :: x in log + [e] <==> x in log || x == e;
  }

  lemma TalkExtends(env: Env, code: Bytes, c: Address, storage: map<SlotKey, Bytes>, log: seq<HostEvent>, e: HostEvent)
    requires Talk(env, code, c, storage, log)
    requires match e
             case Loaded(slot, answer) =>
               && Wants(env, code, log).call == Load(slot)
               && answer == WordIn(env, Holds(env, storage, log, c, slot))
             case Stored(slot, value) => Wants(env, code, log).call == Store(slot, value)
    ensures Talk(env, code, c, storage, log + [e])
    ensures Fuel(env, code, log + [e]) == Fuel(env, code, log) + 1 + Wants(env, code, log).cost
  {
    var more := log + [e];
    assert more[..|log|] == log;
    forall i | 0 <= i < |log| ensures more[..i] == log[..i] && more[i] == log[i] {}
  }

  lemma FollowsLoad(
    env: Env, c: Address, storage: map<SlotKey, Bytes>, log: seq<HostEvent>, at: GuestRun, e: HostEvent)
    requires Follows(env, c, storage, log, at) && e.Loaded?
    ensures Follows(env, c, storage, log + [e], at.(readSet := at.readSet + {SlotKey(c, e.slot)}))
    ensures LoadWord(env, at.storage, SlotKey(c, e.slot)) == WordIn(env, Holds(env, storage, log, c, e.slot))
  {
    hide LastStore;
    hide Slots;
    hide StoredSlots;
    Extend(log, e, c);
    assert At(at.storage, SlotKey(c, e.slot)) == Holds(env, storage, log, c, e.slot);
  }

  lemma FollowsStore(
    env: Env, c: Address, storage: map<SlotKey, Bytes>, log: seq<HostEvent>, at: GuestRun, e: HostEvent)
    requires Follows(env, c, storage, log, at) && e.Stored?
    ensures var k := SlotKey(c, e.slot);
            Follows(env, c, storage, log + [e],
                    at.(storage := at.storage[k := env.bytesOf(e.value)],
                        readSet := at.readSet + {k}, writeSet := at.writeSet + {k}))
  {
    hide LastStore;
    hide Slots;
    hide StoredSlots;
    Extend(log, e, c);
  }

  lemma FollowsToEnd(env: Env, c: Address, storage: map<SlotKey, Bytes>, log: seq<HostEvent>, at: GuestRun,
                     error: Option<RejectReason>)
    requires Follows(env, c, storage, log, at)
    ensures Follows(env, c, storage, log, at.(error := error))
  {
  }

  /** The rest of a run is the rest of a conversation. */
  lemma {:induction false} RunTalks(
    env: Env, code: Bytes, c: Address, storage: map<SlotKey, Bytes>, fuel: nat, left: nat, log: seq<HostEvent>,
    at: GuestRun) returns (whole: seq<HostEvent>)
    requires Talk(env, code, c, storage, log) && Follows(env, c, storage, log, at)
    requires fuel == left + Fuel(env, code, log)
    ensures var run := RunGuest(env, code, c, Answers(log), left, at);
            WholeTalk(env, code, c, storage, fuel, whole, run.error) && Follows(env, c, storage, whole, run)
    decreases left
  {
    hide Answers;
    hide Talk;
    hide Follows;
    hide Holds;
    whole := log;
    FollowsToEnd(env, c, storage, log, at, RunGuest(env, code, c, Answers(log), left, at).error);
    var step := Wants(env, code, log);
    if left >= 1 + step.cost {
      match step.call {
        case Load(slot) =>
          var k := SlotKey(c, slot);
          var e := Loaded(slot, LoadWord(env, at.storage, k));
          FollowsLoad(env, c, storage, log, at, e);
          TalkExtends(env, code, c, storage, log, e);
          Extend(log, e, c);
          whole := RunTalks(env, code, c, storage, fuel, left - 1 - step.cost, log + [e],
                            at.(readSet := at.readSet + {k}));
        case Store(slot, value) =>
          var k, e := SlotKey(c, slot), Stored(slot, value);
          FollowsStore(env, c, storage, log, at, e);
          TalkExtends(env, code, c, storage, log, e);
          Extend(log, e, c);
          whole := RunTalks(env, code, c, storage, fuel, left - 1 - step.cost, log + [e],
                            at.(storage := at.storage[k := env.bytesOf(value)],
                                readSet := at.readSet + {k}, writeSet := at.writeSet + {k}));
        case _ =>
      }
    }
  }

  lemma {:induction false} FuelGrows(env: Env, code: Bytes, log: seq<HostEvent>, n: nat)
    requires n <= |log|
    ensures Fuel(env, code, log[..n]) <= Fuel(env, code, log)
    ensures n < |log| ==> Fuel(env, code, log[..n]) + 1 + Wants(env, code, log[..n]).cost <= Fuel(env, code, log)
    decreases |log|
  {
    if n == |log| {
      assert log[..n] == log;
    } else {
      var init := log[..|log| - 1];
      assert init[..n] == log[..n];
      FuelGrows(env, code, init, n);
    }
  }

  /** A guest has one conversation: two talks agree as far as both go. */
  lemma {:induction false} TalksAgree(
    env: Env, code: Bytes, c: Address, storage: map<SlotKey, Bytes>, a: seq<HostEvent>, b: seq<HostEvent>, n: nat)
    requires Talk(env, code, c, storage, a) && Talk(env, code, c, storage, b) && n <= |a| && n <= |b|
    ensures a[..n] == b[..n]
  {
    hide Holds;
    hide Answers;
    if n > 0 {
      TalksAgree(env, code, c, storage, a, b, n - 1);
      assert a[..n] == a[..n - 1] + [a[n - 1]] && b[..n] == b[..n - 1] + [b[n - 1]];
    }
  }

  lemma OneTalk(env: Env, code: Bytes, c: Address, storage: map<SlotKey, Bytes>, fuel: nat,
                a: seq<HostEvent>, x: Option<RejectReason>, b: seq<HostEvent>, y: Option<RejectReason>)
    requires WholeTalk(env, code, c, storage, fuel, a, x) && WholeTalk(env, code, c, storage, fuel, b, y)
    ensures a == b && x == y
  {
    hide Answers;
    hide Holds;
    if |a| < |b| {
      NotOver(env, code, c, storage, fuel, a, x, b);
    } else if |b| < |a| {
      NotOver(env, code, c, storage, fuel, b, y, a);
    } else {
      TalksAgree(env, code, c, storage, a, b, |a|);
      assert a[..|a|] == a && b[..|b|] == b;
    }
  }

  /** A conversation that goes on was not over. */
  lemma NotOver(env: Env, code: Bytes, c: Address, storage: map<SlotKey, Bytes>, fuel: nat,
                a: seq<HostEvent>, x: Option<RejectReason>, b: seq<HostEvent>)
    requires Talk(env, code, c, storage, a) && Talk(env, code, c, storage, b)
    requires |a| < |b| && Fuel(env, code, b) <= fuel
    ensures !Over(env, code, fuel, a, x)
  {
    hide Answers;
    hide Holds;
    TalksAgree(env, code, c, storage, a, b, |a|);
    assert a[..|a|] == a;
    FuelGrows(env, code, b, |a|);
  }

  /** Running a guest from `storage` has an outcome exactly when that is how its conversation ends. The slots
      it read and wrote are those of the conversation, and storage is what the last stores left. */
  lemma RunIsTalk(env: Env, code: Bytes, c: Address, storage: map<SlotKey, Bytes>, fuel: nat)
    returns (log: seq<HostEvent>)
    ensures var run := RunGuest(env, code, c, [], fuel, GuestRun(None, storage, {}, {}));
            && Follows(env, c, storage, log, run)
            && forall l, e :: WholeTalk(env, code, c, storage, fuel, l, e) <==> l == log && e == run.error
  {
    var at := GuestRun(None, storage, {}, {});
    var run := RunGuest(env, code, c, [], fuel, at);
    assert Answers([]) == [] && Slots([], c) == {} && StoredSlots([], c) == {};
    log := RunTalks(env, code, c, storage, fuel, fuel, [], at);
    forall l, e | WholeTalk(env, code, c, storage, fuel, l, e) ensures l == log && e == run.error {
      OneTalk(env, code, c, storage, fuel, l, e, log, run.error);
    }
  }

  /** The conversation of a call, and how it ends. */
  ghost function TalkOf(env: Env, code: Bytes, c: Address, storage: map<SlotKey, Bytes>, fuel: nat)
    : (r: (seq<HostEvent>, Option<RejectReason>))
    ensures WholeTalk(env, code, c, storage, fuel, r.0, r.1)
  {
    TalkExists(env, code, c, storage, fuel);
    var log, error :| WholeTalk(env, code, c, storage, fuel, log, error);
    (log, error)
  }

  lemma TalkExists(env: Env, code: Bytes, c: Address, storage: map<SlotKey, Bytes>, fuel: nat)
    ensures exists log, error :: WholeTalk(env, code, c, storage, fuel, log, error)
  {
    var log := RunIsTalk(env, code, c, storage, fuel);
    assert WholeTalk(env, code, c, storage, fuel, log,
                     RunGuest(env, code, c, [], fuel, GuestRun(None, storage, {}, {})).error);
  }

  // ------------------------------------------------------------- slot words

  const TWO_63: int := 0x8000_0000_0000_0000
  const TWO_64: int := 0x1_0000_0000_0000_0000

  /** The eight bytes a word is stored in: two's complement, most significant byte first. */
  function SlotBytes(v: int): Bytes
    requires -TWO_63 <= v < TWO_63
  {
    Codec.Word(if v < 0 then v + TWO_64 else v, 8)
  }

  /** What a slot is read as; anything but eight bytes reads as zero. */
  function SlotWord(b: Bytes): int {
    if |b| != 8 then 0 else var n := Codec.Number8(b); if n < TWO_63 then n else n - TWO_64
  }

  /** Every word reads back, so with these as `bytesOf` and `wordOf` a load answers the word last stored. */
  lemma SlotWordsReadBack(v: int)
    requires -TWO_63 <= v < TWO_63
    ensures SlotWord(SlotBytes(v)) == v
  {
    Codec.Widths();
    hide Codec.Word;
    hide Codec.Number;
    Codec.NumberWord(if v < 0 then v + TWO_64 else v, 8);
  }
}
