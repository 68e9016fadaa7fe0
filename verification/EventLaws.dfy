/**
  What event delivery comes to, in numbers, texts and flag letters: which events of a message run and in which order,
  and what each kind of condition asks of a value.
*/
module EventLaws {
  import opened EventFilter
  import opened Common

  // ---- Flags ----

  // The letters a to g of a registration, bits 0 to 6: a for the world, b for clients; of those f or g pick players or
  // bots, and d or e the dead or the living; without a pick both are meant.
  lemma LettersPickTargets(word: bv32, bot: bool, alive: bool)
    ensures FlagsMatch(DecodeFlags(word), World) <==> Bit(word, 0)
    ensures FlagsMatch(DecodeFlags(word), Player(bot, alive)) <==>
            && Bit(word, 1)
            && (Bit(word, 5) || Bit(word, 6) ==> Bit(word, if bot then 6 else 5))
            && (Bit(word, 3) || Bit(word, 4) ==> Bit(word, if alive then 4 else 3))
    ensures DecodeFlags(word).once <==> Bit(word, 2)
  {
    assert word & 1 != 0 <==> Bit(word, 0);
    assert word & 2 != 0 <==> Bit(word, 1);
    assert word & 4 != 0 <==> Bit(word, 2);
    assert word & 8 != 0 <==> Bit(word, 3);
    assert word & 16 != 0 <==> Bit(word, 4);
    assert word & 32 != 0 <==> Bit(word, 5);
    assert word & 64 != 0 <==> Bit(word, 6);
    assert word & 24 != 0 <==> Bit(word, 3) || Bit(word, 4);
    assert word & 96 != 0 <==> Bit(word, 5) || Bit(word, 6);
  }

  // ---- Words and integers ----

  // The integer that a word represents in two's complement.
  function Signed(w: bv32): Int32 {
    var i := w as int;
    if i < 0x8000_0000 then i else i - 0x1_0000_0000
  }

  lemma BitsAre(i: Int32, n: int)
    requires n == if i < 0 then i + 0x1_0000_0000 else i
    ensures Bits(i) == n as bv32
  {}

  lemma BitsOfSigned(w: bv32)
    ensures Bits(Signed(w)) == w
  {
    assert (w as int) as bv32 == w;
    BitsAre(Signed(w), w as int);
  }

  lemma TopBit(w: bv32)
    requires w as int < 0x8000_0000
    ensures w & 0x8000_0000 == 0
  {}

  lemma Doubled(w: bv32)
    requires w & 0x8000_0000 == 0
    ensures (w << 1) as int == 2 * (w as int) && ((w << 1) | 1) as int == 2 * (w as int) + 1
  {}

  lemma {:induction false} WordOf(n: int) returns (w: bv32)
    requires 0 <= n < 0x1_0000_0000
    ensures w as int == n
  {
    if n == 0 {
      w := 0;
    } else {
      var v := WordOf(n / 2);
      TopBit(v);
      Doubled(v);
      w := if n % 2 == 0 then v << 1 else (v << 1) | 1;
    }
  }

  // Every integer is represented.
  lemma EverySigned(i: Int32)
    ensures Signed(Bits(i)) == i
  {
    var w := WordOf(if i < 0 then i + 0x1_0000_0000 else i);
    assert (w as int) as bv32 == w;
  }

  // ---- Conditions ----

  // A condition on a parameter that is not delivered rules nothing out.
  lemma OneCondition(c: Cond, params: seq<Param>)
    ensures Passes([c], params) <==> (1 <= c.paramId <= |params| ==> Satisfied(c, params[c.paramId - 1]))
  {
    assert [c][0] == c;
    if Passes([c], params) && 1 <= c.paramId <= |params| {
      assert Admits([c], c.paramId - 1 + 1, params[c.paramId - 1]);
    }
  }

  lemma Alternative(conds: seq<Cond>, params: seq<Param>, i: nat) returns (j: nat)
    requires Passes(conds, params) && i < |conds| && 1 <= conds[i].paramId <= |params|
    ensures j < |conds| && conds[j].paramId == conds[i].paramId && Passes([conds[j]], params)
  {
    var k := conds[i].paramId - 1;
    assert Admits(conds, k + 1, params[k]);
    j :| 0 <= j < |conds| && conds[j].paramId == k + 1 && Satisfied(conds[j], params[k]);
    OneCondition(conds[j], params);
  }

  lemma Obstacle(conds: seq<Cond>, params: seq<Param>) returns (i: nat)
    requires !Passes(conds, params)
    ensures i < |conds| && 1 <= conds[i].paramId <= |params|
    ensures forall j :: 0 <= j < |conds| && conds[j].paramId == conds[i].paramId ==> !Passes([conds[j]], params)
  {
    var k :| 0 <= k < |params| && !Admits(conds, k + 1, params[k]);
    i :| 0 <= i < |conds| && conds[i].paramId == k + 1;
    forall j | 0 <= j < |conds| && conds[j].paramId == k + 1 ensures !Passes([conds[j]], params) {
      OneCondition(conds[j], params);
    }
  }

  // Several conditions: for each that is on a delivered parameter, one on that parameter is met.
  lemma Alternatives(conds: seq<Cond>, params: seq<Param>)
    ensures Passes(conds, params) <==>
            forall i :: 0 <= i < |conds| && 1 <= conds[i].paramId <= |params| ==>
              exists j :: 0 <= j < |conds| && conds[j].paramId == conds[i].paramId && Passes([conds[j]], params)
  {
    if Passes(conds, params) {
      forall i | 0 <= i < |conds| && 1 <= conds[i].paramId <= |params|
        ensures exists j :: 0 <= j < |conds| && conds[j].paramId == conds[i].paramId && Passes([conds[j]], params)
      {
        var j := Alternative(conds, params, i);
      }
    } else {
      var i := Obstacle(conds, params);
      assert forall j :: 0 <= j < |conds| && conds[j].paramId == conds[i].paramId ==> !Passes([conds[j]], params);
    }
  }

  lemma MaskComparison(c: Cond, i: Int32)
    requires c.kind == '&'
    ensures Satisfied(c, IntVal(i)) <==> ShareBit(Bits(i), Bits(c.iValue))
  {
    AndMeans(Bits(i), Bits(c.iValue));
  }

  // What each kind of condition asks of each type of value.
  lemma Comparisons(c: Cond, params: seq<Param>)
    requires 1 <= c.paramId <= |params|
    ensures params[c.paramId - 1].IntVal? ==>
      var i, n := params[c.paramId - 1].i, c.iValue;
      (Passes([c], params) <==>
        || (c.kind == '<' && i < n) || (c.kind == '>' && i > n)
        || (c.kind == '=' && i == n) || (c.kind == '!' && i != n)
        || (c.kind == '&' && ShareBit(Bits(i), Bits(n))))
    ensures params[c.paramId - 1].FloatVal? ==>
      var f, n := params[c.paramId - 1].f, c.fValue;
      (Passes([c], params) <==>
        || (c.kind == '<' && f < n) || (c.kind == '>' && f > n)
        || (c.kind == '=' && f == n) || (c.kind == '!' && f != n))
    ensures params[c.paramId - 1].StrVal? ==>
      var s, t := params[c.paramId - 1].s, c.sValue;
      (Passes([c], params) <==>
        || (c.kind == '=' && s == t) || (c.kind == '!' && s != t)
        || (c.kind == '&' && exists pre, suf :: s == pre + t + suf))
  {
    OneCondition(c, params);
    match params[c.paramId - 1]
    case IntVal(i) =>
      if c.kind == '&' {
        MaskComparison(c, i);
      }
    case StrVal(s) => ContainsMeans(s, c.sValue);
    case FloatVal(_) =>
  }

  // ---- Deliveries ----

  ghost predicate Ascends(at: seq<nat>) {
    forall k, l :: 0 <= k < l < |at| ==> at[k] < at[l]
  }

  // The calls are those of the events at some places of the list, in the order of the list.
  lemma {:induction false} CallsInOrder(list: seq<ClEvent>, chosen: seq<bool>, args: seq<Param>, n: nat)
    returns (at: seq<nat>)
    requires n <= |list| == |chosen|
    ensures Ascends(at) && forall i :: i in at <==> 0 <= i < n && chosen[i] && list[i].active
    ensures |CallsOf(list, chosen, args, n)| == |at| <= n
    ensures forall k :: 0 <= k < |at| ==> at[k] < n && CallsOf(list, chosen, args, n)[k] == Call(list[at[k]].func, args)
  {
    at := [];
    if n > 0 {
      at := CallsInOrder(list, chosen, args, n - 1);
      if chosen[n - 1] && list[n - 1].active {
        at := at + [n - 1];
      }
    }
  }

  // The event is active, may run, is for this target, and has not run in this frame if it runs once a frame.
  predicate Ready(e: ClEvent, timer: real, target: Target, executable: int -> bool)
    reads e
  {
    && e.active && executable(e.func) && (e.flags.once ==> e.stamp != timer)
    && match target
       case World => e.flags.world
       case Player(bot, alive) =>
         && e.flags.client
         && (bot ==> e.flags.bot) && (!bot ==> e.flags.player)
         && (alive ==> e.flags.alive) && (!alive ==> e.flags.dead)
  }

  // A whole message runs, in the order of registration, the events that are ready for its target and whose conditions
  // the parameters pass.
  method DeliverInOrder(m: EventsMngr, msgType: int, timer: real, target: Target, index: Int32, params: seq<Param>,
                        executable: int -> bool)
    returns (calls: seq<Call>, ghost at: seq<nat>)
    requires m.Valid() && m.parseFun == -1 && 0 <= msgType < |m.events| && msgType != m.types
    requires forall e <- m.Listed(msgType) :: !e.done
    modifies m, m.vault, m.Listed(msgType)
    ensures m.Valid() && m.parseFun == -1 && m.events == old(m.events)
    ensures Ascends(at) && |at| == |calls| <= |m.events[msgType]|
    ensures forall k :: 0 <= k < |at| ==>
      at[k] < |m.events[msgType]| && calls[k] == Call(m.events[msgType][at[k]].func, [IntVal(index)] + params)
    ensures forall i :: 0 <= i < |m.events[msgType]| ==>
      var e := m.events[msgType][i];
      && (i in at <==> old(Ready(e, timer, target, executable)) && Passes(e.conditions, params))
      && (i in at ==> e.stamp == timer)
  {
    ghost var list := m.events[msgType];
    ghost var chosen := Chosen(list, OpenEvents(list, target, timer, executable), params);
    calls := m.Deliver(msgType, timer, target, index, params, executable);
    at := CallsInOrder(list, chosen, [IntVal(index)] + params, |list|);
  }

  // An event with one condition runs if it is ready and the value that the condition is on compares as the condition
  // says, and not otherwise.
  method DeliverOne(m: EventsMngr, msgType: int, timer: real, target: Target, index: Int32, params: seq<Param>,
                    executable: int -> bool, e: ClEvent, c: Cond)
    returns (calls: seq<Call>)
    requires m.Valid() && m.parseFun == -1 && 0 <= msgType < |m.events| && msgType != m.types
    requires m.events[msgType] == [e] && !e.done && e.conditions == [c]
    modifies m, m.vault, e
    ensures calls == [] || calls == [Call(e.func, [IntVal(index)] + params)]
    ensures !old(Ready(e, timer, target, executable)) ==> calls == []
    // a condition on no parameter of this message asks nothing
    ensures old(Ready(e, timer, target, executable)) && !(1 <= c.paramId <= |params|) ==> calls != []
    ensures old(Ready(e, timer, target, executable)) && 1 <= c.paramId <= |params| &&
            params[c.paramId - 1].IntVal? ==>
      var i, n := params[c.paramId - 1].i, c.iValue;
      (calls != [] <==>
        || (c.kind == '<' && i < n) || (c.kind == '>' && i > n)
        || (c.kind == '=' && i == n) || (c.kind == '!' && i != n)
        || (c.kind == '&' && ShareBit(Bits(i), Bits(n))))
    ensures old(Ready(e, timer, target, executable)) && 1 <= c.paramId <= |params| &&
            params[c.paramId - 1].FloatVal? ==>
      var f, n := params[c.paramId - 1].f, c.fValue;
      (calls != [] <==>
        || (c.kind == '<' && f < n) || (c.kind == '>' && f > n)
        || (c.kind == '=' && f == n) || (c.kind == '!' && f != n))
    ensures old(Ready(e, timer, target, executable)) && 1 <= c.paramId <= |params| &&
            params[c.paramId - 1].StrVal? ==>
      var s, t := params[c.paramId - 1].s, c.sValue;
      (calls != [] <==>
        || (c.kind == '=' && s == t) || (c.kind == '!' && s != t)
        || (c.kind == '&' && exists pre, suf :: s == pre + t + suf))
  {
    ghost var at;
    calls, at := DeliverInOrder(m, msgType, timer, target, index, params, executable);
    OneCondition(c, params);
    if 1 <= c.paramId <= |params| {
      Comparisons(c, params);
    }
    assert m.events[msgType][0] == e;
    assert |at| == 1 ==> at[0] in at;
  }
}
