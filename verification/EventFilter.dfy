/**
  Event delivery of AMX Mod X (CEvent.cpp): parserInit, parseValue per parameter and executeEvents.  The incremental
  filter, which only ever sets m_Done flags, is proved to run exactly the events a declarative reading of their flags
  and conditions selects, with the delivered parameters as arguments.
*/
module EventFilter {
  import Common

  const INITIAL_PARSEVAULT_SIZE := 32

  type Int32 = x: int | -0x8000_0000 <= x < 0x8000_0000

  datatype Param = IntVal(i: Int32) | FloatVal(f: real) | StrVal(s: string)

  // A registered condition: parameter number, comparison character, and the value as string, float and integer.
  datatype Cond = Cond(paramId: int, kind: char, sValue: string, fValue: real, iValue: Int32)

  datatype Flags = Flags(world: bool, client: bool, once: bool, dead: bool, alive: bool, player: bool, bot: bool)

  // What the constructor makes of the letters a to g, the bits 0 to 6.  The player and bot flags of an event that is
  // not for clients are never asked for.
  function DecodeFlags(word: bv32): Flags {
    var client := word & 2 != 0;
    var picksState, picksKind := word & 24 != 0, word & 96 != 0;
    Flags(word & 1 != 0, client, word & 4 != 0,
          if picksState then word & 8 != 0 else true,
          if picksState then word & 16 != 0 else true,
          client && (if picksKind then word & 32 != 0 else true),
          client && (if picksKind then word & 64 != 0 else true))
  }

  datatype Target = World | Player(bot: bool, alive: bool)

  // One handler call: the function, and the arguments it can read.
  datatype Call = Call(func: int, args: seq<Param>)

  // ---- The declarative reading ----

  // The two's complement representation.
  function Bits(a: Int32): bv32 {
    (if a < 0 then a + 0x1_0000_0000 else a) as bv32
  }

  // A comparison that does not exist for the type of the value is never satisfied.
  predicate Satisfied(c: Cond, v: Param) {
    match v
    case IntVal(i) =>
      (match c.kind
       case '=' => c.iValue == i
       case '!' => c.iValue != i
       case '&' => Bits(i) & Bits(c.iValue) != 0
       case '<' => i < c.iValue
       case '>' => i > c.iValue
       case _ => false)
    case FloatVal(f) =>
      (match c.kind
       case '=' => c.fValue == f
       case '!' => c.fValue != f
       case '<' => f < c.fValue
       case '>' => f > c.fValue
       case _ => false)
    case StrVal(s) =>
      (match c.kind
       case '=' => s == c.sValue
       case '!' => s != c.sValue
       case '&' => Common.Contains(s, c.sValue)
       case _ => false)
  }

  ghost predicate Concerns(conds: seq<Cond>, k: int) {
    exists j :: 0 <= j < |conds| && conds[j].paramId == k
  }

  ghost predicate SomeHolds(conds: seq<Cond>, k: int, v: Param) {
    exists j :: 0 <= j < |conds| && conds[j].paramId == k && Satisfied(conds[j], v)
  }

  // The k-th parameter does not rule the event out.
  ghost predicate Admits(conds: seq<Cond>, k: int, v: Param) {
    Concerns(conds, k) ==> SomeHolds(conds, k, v)
  }

  // Every delivered parameter that the conditions mention satisfies at least one of them.
  ghost predicate Passes(conds: seq<Cond>, params: seq<Param>) {
    forall k :: 0 <= k < |params| ==> Admits(conds, k + 1, params[k])
  }

  predicate FlagsMatch(f: Flags, t: Target) {
    match t
    case World => f.world
    case Player(bot, alive) => f.client && (if bot then f.bot else f.player) && (if alive then f.alive else f.dead)
  }

  // ---- The objects ----

  class ClEvent {
    const func: int
    const flags: Flags
    const active: bool            // m_State == FSTATE_ACTIVE
    const conditions: seq<Cond>   // the m_Conditions list
    var stamp: real
    var done: bool

    constructor (func: int, flags: bv32, active: bool, conditions: seq<Cond>)
      ensures this.func == func && this.flags == DecodeFlags(flags)
      ensures this.active == active && this.conditions == conditions && !done && stamp == 0.0
    {
      this.func, this.flags, this.active, this.conditions := func, DecodeFlags(flags), active, conditions;
      stamp, done := 0.0, false;
    }

    // What parserInit asks of an event.
    predicate Eligible(t: Target, timer: real, executable: int -> bool)
      reads this
    {
      executable(func) && FlagsMatch(flags, t) && !(flags.once && stamp == timer)
    }

    // The loop over the conditions for the parameter number pos.
    method Accepts(pos: int, v: Param) returns (ok: bool)
      ensures ok <==> Admits(conditions, pos, v)
    {
      var execute, anyConditions := false, false;
      var j := 0;
      while j < |conditions| && !execute
        invariant 0 <= j <= |conditions|
        invariant anyConditions <==> exists k :: 0 <= k < j && conditions[k].paramId == pos
        invariant execute <==> exists k :: 0 <= k < j && conditions[k].paramId == pos && Satisfied(conditions[k], v)
      {
        if conditions[j].paramId == pos {
          anyConditions := true;
          if Satisfied(conditions[j], v) {
            execute := true;
          }
        }
        j := j + 1;
      }
      return !(anyConditions && !execute);
    }
  }

  ghost predicate Distinct(events: seq<ClEvent>) {
    forall i, j :: 0 <= i < j < |events| ==> events[i] != events[j]
  }

  // Which events an initialisation leaves open.
  ghost function OpenEvents(list: seq<ClEvent>, t: Target, timer: real, executable: int -> bool): (r: seq<bool>)
    reads list
    ensures |r| == |list|
  {
    seq(|list|, i requires 0 <= i < |list| reads list => !list[i].done && list[i].Eligible(t, timer, executable))
  }

  // Which of them the parameters let through.
  ghost function Chosen(list: seq<ClEvent>, open: seq<bool>, params: seq<Param>): (r: seq<bool>)
    requires |open| == |list|
    ensures |r| == |list|
  {
    seq(|list|, i requires 0 <= i < |list| => open[i] && Passes(list[i].conditions, params))
  }

  // The calls that executing the first n events makes, when exactly the chosen ones run.
  ghost function CallsOf(events: seq<ClEvent>, chosen: seq<bool>, args: seq<Param>, n: nat): seq<Call>
    requires n <= |events| == |chosen|
  {
    if n == 0 then []
    else CallsOf(events, chosen, args, n - 1) +
         if chosen[n - 1] && events[n - 1].active then [Call(events[n - 1].func, args)] else []
  }

  lemma {:induction false} NoCalls(list: seq<ClEvent>, chosen: seq<bool>, args: seq<Param>, others: seq<Param>, n: nat)
    requires n <= |list| == |chosen| && forall i :: 0 <= i < n ==> !chosen[i]
    ensures CallsOf(list, chosen, args, n) == CallsOf(list, chosen, others, n) == []
  {
    if n > 0 {
      NoCalls(list, chosen, args, others, n - 1);
    }
  }

  // A call is made exactly for the open active events whose conditions every parameter passes.
  lemma {:induction false} RunsExactly(list: seq<ClEvent>, open: seq<bool>, params: seq<Param>, args: seq<Param>,
                                       n: nat, c: Call)
    requires n <= |list| == |open|
    ensures c in CallsOf(list, Chosen(list, open, params), args, n) <==>
            exists i :: 0 <= i < n && open[i] && Passes(list[i].conditions, params) && list[i].active &&
                        c == Call(list[i].func, args)
  {
    if n > 0 {
      RunsExactly(list, open, params, args, n - 1, c);
      var last := list[n - 1];
      if open[n - 1] && Passes(last.conditions, params) && last.active && c == Call(last.func, args) {
        assert c in CallsOf(list, Chosen(list, open, params), args, n);
      }
    }
  }

  // Marks what the message does not concern; the result says whether anything is left open.
  method MarkClosed(list: seq<ClEvent>, timer: real, target: Target, executable: int -> bool)
    returns (some: bool, ghost open: seq<bool>)
    requires Distinct(list)
    modifies list
    ensures open == old(OpenEvents(list, target, timer, executable))
    ensures some <==> exists k :: 0 <= k < |open| && open[k]
    ensures forall k :: 0 <= k < |list| ==> (list[k].done <==> !open[k])
    ensures forall k :: 0 <= k < |list| ==> list[k].stamp == old(list[k].stamp)
  {
    some, open := false, OpenEvents(list, target, timer, executable);
    for i := 0 to |list|
      invariant forall k :: 0 <= k < i ==> (list[k].done <==> !open[k])
      invariant forall k :: i <= k < |list| ==> list[k].done == old(list[k].done)
      invariant forall k :: 0 <= k < |list| ==> list[k].stamp == old(list[k].stamp)
      invariant some <==> exists k :: 0 <= k < i && open[k]
    {
      var e := list[i];
      assert open[i] <==> !e.done && e.Eligible(target, timer, executable);
      if !e.done {
        if e.Eligible(target, timer, executable) {
          some := true;
        } else {
          e.done := true;
        }
      }
    }
  }

  // Marks what the parameter number pos rules out.
  method CloseRefused(list: seq<ClEvent>, pos: int, v: Param)
    requires Distinct(list)
    modifies list
    ensures forall k :: 0 <= k < |list| ==>
      (list[k].done <==> old(list[k].done) || !Admits(list[k].conditions, pos, v))
    ensures forall k :: 0 <= k < |list| ==> list[k].stamp == old(list[k].stamp)
  {
    for i := 0 to |list|
      invariant forall k :: 0 <= k < i ==>
        (list[k].done <==> old(list[k].done) || !Admits(list[k].conditions, pos, v))
      invariant forall k :: i <= k < |list| ==> list[k].done == old(list[k].done)
      invariant forall k :: 0 <= k < |list| ==> list[k].stamp == old(list[k].stamp)
    {
      var e := list[i];
      if !e.done {
        var ok := e.Accepts(pos, v);
        if !ok {
          e.done := true;
        }
      }
    }
  }

  ghost function OpenFlags(list: seq<ClEvent>): (r: seq<bool>)
    reads list
    ensures |r| == |list|
  {
    seq(|list|, i requires 0 <= i < |list| reads list => !list[i].done)
  }

  // Runs what is open and clears every m_Done flag.
  method RunOpen(list: seq<ClEvent>, timer: real, args: seq<Param>) returns (calls: seq<Call>)
    requires Distinct(list)
    modifies list
    ensures calls == CallsOf(list, old(OpenFlags(list)), args, |list|)
    ensures forall k :: 0 <= k < |list| ==> !list[k].done
    ensures forall k :: 0 <= k < |list| ==> list[k].stamp == if old(list[k].done) then old(list[k].stamp) else timer
  {
    ghost var open := OpenFlags(list);
    calls := [];
    for i := 0 to |list|
      invariant calls == CallsOf(list, open, args, i)
      invariant forall k :: 0 <= k < i ==> !list[k].done
      invariant forall k :: 0 <= k < i ==> list[k].stamp == if open[k] then timer else old(list[k].stamp)
      invariant forall k :: i <= k < |list| ==> list[k].done == old(list[k].done)
      invariant forall k :: i <= k < |list| ==> list[k].stamp == old(list[k].stamp)
    {
      var e := list[i];
      if e.done {
        e.done := false;
      } else {
        e.stamp := timer;
        if e.active {
          calls := calls + [Call(e.func, args)];
        }
      }
    }
  }

  lemma PassesOneMore(conds: seq<Cond>, params: seq<Param>, v: Param)
    ensures Passes(conds, params + [v]) <==> Passes(conds, params) && Admits(conds, |params| + 1, v)
  {
    var more := params + [v];
    assert more[|params|] == v;
    assert forall k :: 0 <= k < |params| ==> more[k] == params[k];
  }

  class EventsMngr {
    const types: nat                 // MAX_AMX_REG_MSG
    var events: seq<seq<ClEvent>>    // m_Events, one list per message type
    var parseFun: int                // the list being parsed, -1 for none
    var parseNotDone: bool
    var parsePos: int
    var vault: array<Param>          // m_ParseVault, of length m_ParseVaultSize
    ghost var eligible: seq<bool>    // which events of the current list parserInit left open
    ghost var delivered: seq<Param>  // the parameters since parserInit
    ghost var index: Int32

    ghost function Listed(msgType: int): set<ClEvent>
      reads this`events
    {
      if 0 <= msgType < |events| then set e | e in events[msgType] else {}
    }

    ghost predicate Valid()
      reads this
    {
      && |events| == types
      && (forall m :: 0 <= m < |events| ==> Distinct(events[m]))
      && -1 <= parseFun < |events|
      && 0 <= parsePos
      && (parsePos < vault.Length || parsePos == vault.Length == 0)
    }

    // An event is still open exactly when it was eligible and has passed every parameter so far.
    ghost predicate Filtered()
      reads this`events, this`parseFun, this`parseNotDone, this`eligible, this`delivered, Listed(parseFun)
    {
      && 0 <= parseFun < |events|
      && |eligible| == |events[parseFun]|
      && (forall i :: 0 <= i < |eligible| ==>
            (events[parseFun][i].done <==> !(eligible[i] && Passes(events[parseFun][i].conditions, delivered))))
      && (!parseNotDone ==> forall i :: 0 <= i < |eligible| ==> !eligible[i])
    }

    // While something is open, the vault holds the index and the delivered parameters.
    ghost predicate Recorded()
      reads this, vault
    {
      parseNotDone ==>
        && parsePos == |delivered| < vault.Length
        && vault[0] == IntVal(index)
        && forall k :: 0 <= k < |delivered| ==> vault[k + 1] == delivered[k]
    }

    constructor (types: nat)
      ensures this.types == types && Valid() && parseFun == -1 && !parseNotDone && fresh(vault)
      ensures forall m :: 0 <= m < types ==> events[m] == []
    {
      this.types := types;
      events := seq(types, _ => []);
      parseFun, parseNotDone, parsePos := -1, false, 0;
      vault := new Param[0];
      eligible, delivered, index := [], [], 0;
    }

    // Appends a new event to the list of its message type, unless that type does not exist.
    method RegisterEvent(func: int, flags: bv32, active: bool, conditions: seq<Cond>, msgId: int) returns (ok: bool)
      requires Valid()
      modifies this`events
      ensures Valid() && (ok <==> 0 <= msgId < types)
      ensures !ok ==> events == old(events)
      ensures ok ==>
        && |events[msgId]| == |old(events[msgId])| + 1
        && events == old(events)[msgId := old(events[msgId]) + [events[msgId][|events[msgId]| - 1]]]
        && var e := events[msgId][|events[msgId]| - 1];
           fresh(e) && !e.done && e.stamp == 0.0 && e.func == func && e.flags == DecodeFlags(flags)
           && e.active == active && e.conditions == conditions
      // a message of another type that is being parsed is not disturbed
      ensures old(Filtered()) && parseFun != msgId ==> Filtered()
    {
      if msgId < 0 || msgId >= types {
        return false;
      }
      var e := new ClEvent(func, flags, active, conditions);
      events := events[msgId := events[msgId] + [e]];
      return true;
    }

    // The guard of parserInit.
    predicate Refused(msgType: int) {
      msgType < 0 || msgType > types
    }

    // It lets through one type without a list, and no other.
    lemma GuardMissesOne(msgType: int)
      requires Valid()
      ensures !Refused(msgType) && !(0 <= msgType < |events|) <==> msgType == types
    {}

    // Makes room for the parameter at parsePos.
    method NextParam()
      requires 0 <= parsePos <= vault.Length
      modifies this`vault
      ensures parsePos < vault.Length && (vault == old(vault) || fresh(vault))
      ensures vault.Length == if parsePos < old(vault).Length then old(vault).Length
                              else if old(vault).Length > 0 then 2 * old(vault).Length else 32
      ensures forall k :: 0 <= k < parsePos ==> vault[k] == old(vault[k])
    {
      if parsePos < vault.Length {
        return;
      }
      var tmp := vault;
      var size := if vault.Length > 0 then vault.Length * 2 else INITIAL_PARSEVAULT_SIZE;
      var grown := new Param[size](_ => IntVal(0));
      for i := 0 to tmp.Length
        invariant vault == tmp && forall k :: 0 <= k < i ==> grown[k] == tmp[k]
      {
        grown[i] := tmp[i];
      }
      vault := grown;
    }

    // The vault of a new message holds the index.
    method OpenVault(index: Int32)
      requires Valid()
      modifies this`parsePos, this`vault, vault
      ensures Valid() && parsePos == 0 < vault.Length && vault[0] == IntVal(index)
      ensures vault == old(vault) || fresh(vault)
    {
      parsePos := 0;
      NextParam();
      vault[0] := IntVal(index);
    }

    // Opens a message of the given type; index becomes argument 0.
    method ParserInit(msgType: int, timer: real, target: Target, index: Int32, executable: int -> bool)
      requires Valid() && msgType != types
      modifies this, vault, Listed(msgType)
      ensures Valid() && events == old(events) && (vault == old(vault) || fresh(vault))
      ensures !(0 <= msgType < |events|) ==> parseFun == old(parseFun) && parseNotDone == old(parseNotDone)
      ensures 0 <= msgType < |events| && events[msgType] == [] ==> parseFun == old(parseFun) && !parseNotDone
      ensures 0 <= msgType < |events| && events[msgType] != [] ==>
        && parseFun == msgType && Filtered() && Recorded() && delivered == [] && this.index == index
        && eligible == old(OpenEvents(events[msgType], target, timer, executable))
      ensures forall e <- Listed(msgType) :: e.stamp == old(e.stamp)
    {
      if Refused(msgType) {
        return;
      }
      parseNotDone := false;
      var list := events[msgType];
      if |list| == 0 {
        return;
      }
      parseNotDone, eligible := MarkClosed(list, timer, target, executable);
      delivered := [];
      if parseNotDone {
        OpenVault(index);
      }
      parseFun := msgType;
      this.index := index;
    }

    // One parameter of the message.
    method ParseValue(v: Param)
      requires Valid() && (parseFun == -1 || (Filtered() && Recorded()))
      modifies this`parsePos, this`vault, this`delivered, vault, Listed(parseFun)
      ensures Valid() && (vault == old(vault) || fresh(vault))
      ensures parseFun != -1 ==> Filtered() && Recorded() && delivered == old(delivered) + [v]
      ensures forall e <- Listed(parseFun) :: e.stamp == old(e.stamp)
    {
      if parseFun != -1 {
        forall i | 0 <= i < |events[parseFun]| {
          PassesOneMore(events[parseFun][i].conditions, delivered, v);
        }
        delivered := delivered + [v];
      }
      if !parseNotDone || parseFun == -1 {
        return;
      }
      parsePos := parsePos + 1;
      NextParam();
      vault[parsePos] := v;
      CloseRefused(events[parseFun], parsePos, v);
    }

    // Closes the message: runs what is still open and clears every m_Done flag.
    method ExecuteEvents(timer: real) returns (calls: seq<Call>)
      requires Valid() && (parseFun == -1 || (Filtered() && Recorded()))
      modifies this`parseFun, Listed(parseFun)
      ensures Valid() && parseFun == -1
      ensures old(parseFun) == -1 ==> calls == []
      ensures old(parseFun) != -1 ==>
        var list := events[old(parseFun)];
        var chosen := Chosen(list, eligible, delivered);
        && calls == CallsOf(list, chosen, [IntVal(index)] + delivered, |list|)
        && (forall i :: 0 <= i < |list| ==> !list[i].done)
        && (forall i :: 0 <= i < |list| ==> list[i].stamp == if chosen[i] then timer else old(list[i].stamp))
    {
      if parseFun == -1 {
        return [];
      }
      var args := if vault.Length > 0 then vault[..parsePos + 1] else [];
      var list := events[parseFun];
      ghost var chosen := Chosen(list, eligible, delivered);
      assert parseNotDone ==> args == [IntVal(index)] + delivered;
      parseFun := -1;
      calls := RunOpen(list, timer, args);
      assert chosen == old(OpenFlags(list));
      if !parseNotDone {
        NoCalls(list, chosen, args, [IntVal(index)] + delivered, |list|);
      }
    }

    // A whole message, none of whose events is marked: initialised, fed every parameter, executed.
    method Deliver(msgType: int, timer: real, target: Target, index: Int32, params: seq<Param>, executable: int -> bool)
      returns (calls: seq<Call>)
      requires Valid() && parseFun == -1 && msgType != types
      requires forall e <- Listed(msgType) :: !e.done
      modifies this, vault, Listed(msgType)
      ensures Valid() && parseFun == -1 && events == old(events)
      ensures forall e <- Listed(msgType) :: !e.done
      ensures !(0 <= msgType < |events|) ==> calls == []
      ensures 0 <= msgType < |events| ==>
        var list := events[msgType];
        var chosen := Chosen(list, old(OpenEvents(list, target, timer, executable)), params);
        && calls == CallsOf(list, chosen, [IntVal(index)] + params, |list|)
        && forall i :: 0 <= i < |list| ==> list[i].stamp == if chosen[i] then timer else old(list[i].stamp)
    {
      ParserInit(msgType, timer, target, index, executable);
      label Opened:
      for i := 0 to |params|
        invariant Valid() && unchanged@Opened(this`events, this`parseFun, this`eligible, this`index)
        invariant vault == old(vault) || fresh(vault)
        invariant parseFun != -1 ==> Filtered() && Recorded() && delivered == params[..i]
        invariant parseFun == -1 ==> Listed(msgType) == {}
        invariant forall e <- Listed(msgType) :: e.stamp == old(e.stamp)
      {
        ParseValue(params[i]);
      }
      assert params[..|params|] == params;
      calls := ExecuteEvents(timer);
    }
  }
}
