/** Symbolic expressions, the state that maps places to them, and symbolic execution of an instruction. */
module Symbolic {
  import opened Wrappers
  import opened Ir

  /** A register, or a temporary of the machine instruction at `home`. */
  datatype Name = Name(v: Var, home: Option<nat>)

  /** Expressions; `Nothing` stands for None where the original stores or compares it. */
  datatype Sym =
    | Val(name: Name, size: Size)
    | Ptr(val: Sym, size: Size)
    | Number(num: nat, size: Size)
    | Place(at: IRAddr)
    | IP
    | Cond(cond: Sym, yes: Sym, no: Sym)
    | Apply(op: Op, a: Sym, b: Sym)
    | Nothing
  {
    predicate IsTemp() {
      Val? && name.v.Temp?
    }
  }

  /** Operators whose operands match in either order; subtraction is among them. */
  const COMMUTATIVE: set<Op> := {ADD, SUB, AND, XOR, OR}

  /** The equality of expressions: sizes do not count. */
  predicate Matches(x: Sym, y: Sym)
    decreases x
  {
    match x
    case Val(name, _) => y.Val? && name == y.name
    case Ptr(val, _) => y.Ptr? && Matches(val, y.val)
    case Number(num, _) => y.Number? && num == y.num
    case Place(at) => y.Place? && at == y.at
    case IP => y.IP?
    case Cond(cond, yes, no) => y.Cond? && Matches(cond, y.cond) && Matches(yes, y.yes) && Matches(no, y.no)
    case Apply(op, a, b) =>
      && y.Apply? && op == y.op
      && ((Matches(a, y.a) && Matches(b, y.b)) || (op in COMMUTATIVE && Matches(b, y.a) && Matches(a, y.b)))
    case Nothing => y.Nothing?
  }

  lemma {:induction false} MatchesItself(x: Sym)
    ensures Matches(x, x)
    decreases x
  {
    match x
    case Ptr(val, _) => MatchesItself(val);
    case Cond(cond, yes, no) => MatchesItself(cond); MatchesItself(yes); MatchesItself(no);
    case Apply(_, a, b) => MatchesItself(a); MatchesItself(b);
    case _ =>
  }

  lemma {:induction false} MatchesBothWays(x: Sym, y: Sym)
    requires Matches(x, y)
    ensures Matches(y, x)
    decreases x
  {
    match x
    case Ptr(val, _) => MatchesBothWays(val, y.val);
    case Cond(cond, yes, no) =>
      MatchesBothWays(cond, y.cond); MatchesBothWays(yes, y.yes); MatchesBothWays(no, y.no);
    case Apply(_, a, b) =>
      if Matches(a, y.a) && Matches(b, y.b) {
        MatchesBothWays(a, y.a); MatchesBothWays(b, y.b);
      } else {
        MatchesBothWays(b, y.a); MatchesBothWays(a, y.b);
      }
    case _ =>
  }

  lemma {:induction false} MatchesOn(x: Sym, y: Sym, z: Sym)
    requires Matches(x, y) && Matches(y, z)
    ensures Matches(x, z)
    decreases x
  {
    match x
    case Ptr(val, _) => MatchesOn(val, y.val, z.val);
    case Cond(cond, yes, no) =>
      MatchesOn(cond, y.cond, z.cond); MatchesOn(yes, y.yes, z.yes); MatchesOn(no, y.no, z.no);
    case Apply(_, a, b) =>
      var (ya, yb) := if Matches(a, y.a) && Matches(b, y.b) then (y.a, y.b) else (y.b, y.a);
      var (za, zb) := if Matches(ya, z.a) && Matches(yb, z.b) then (z.a, z.b) else (z.b, z.a);
      MatchesOn(a, ya, za); MatchesOn(b, yb, zb);
    case _ =>
  }

  datatype Entry = Entry(key: Sym, exp: Sym)

  type Entries = seq<Entry>

  /** No two keys match. */
  ghost predicate Distinct(s: Entries) {
    forall i, j :: 0 <= i < j < |s| ==> !Matches(s[i].key, s[j].key)
  }

  /** The position of the first matching key, or the length of the state. */
  function Position(s: Entries, val: Sym): (n: nat)
    ensures n <= |s|
    ensures n < |s| ==> Matches(s[n].key, val)
    ensures forall i :: 0 <= i < n ==> !Matches(s[i].key, val)
  {
    if s == [] || Matches(s[0].key, val) then 0 else 1 + Position(s[1..], val)
  }

  function Lookup(s: Entries, val: Sym): Option<Sym> {
    var n := Position(s, val);
    if n < |s| then Some(s[n].exp) else None
  }

  function Resolve(s: Entries, val: Sym): Sym {
    match Lookup(s, val)
    case Some(exp) => exp
    case None => val
  }

  /** A query takes a stored None for a missing entry. */
  function Queried(s: Entries, val: Sym): Sym {
    match Lookup(s, val)
    case Some(exp) => if exp == Nothing then val else exp
    case None => val
  }

  function Updated(s: Entries, val: Sym, exp: Sym): Entries {
    var n := Position(s, val);
    if n < |s| then s[n := Entry(val, exp)] else s + [Entry(val, exp)]
  }

  function Without(s: Entries, val: Sym): Entries {
    var n := Position(s, val);
    if n < |s| then s[..n] + s[n + 1..] else s
  }

  /** The entries that are not for temporaries. */
  function Lasting(s: Entries): Entries {
    if s == [] then []
    else Lasting(s[..|s| - 1]) + (if s[|s| - 1].key.IsTemp() then [] else [s[|s| - 1]])
  }

  lemma PositionIs(s: Entries, val: Sym, n: nat)
    requires n <= |s| && (n < |s| ==> Matches(s[n].key, val))
    requires forall i :: 0 <= i < n ==> !Matches(s[i].key, val)
    ensures Position(s, val) == n
  {
  }

  lemma UpdatedIsDistinct(s: Entries, val: Sym, exp: Sym)
    requires Distinct(s)
    ensures Distinct(Updated(s, val, exp))
  {
    var n, s' := Position(s, val), Updated(s, val, exp);
    forall i, j | 0 <= i < j < |s'|
      ensures !Matches(s'[i].key, s'[j].key)
    {
      if n < |s| && (i == n || j == n) {
        var other := if i == n then s[j].key else s[i].key;
        NoMatchOn(s[n].key, val, other);
      }
    }
  }

  /** What does not match a key does not match what the key matches. */
  lemma NoMatchOn(x: Sym, y: Sym, z: Sym)
    requires Matches(x, y) && (!Matches(x, z) || !Matches(z, x))
    ensures !Matches(y, z) && !Matches(z, y)
  {
    if Matches(z, y) { MatchesBothWays(z, y); }
    if Matches(y, z) {
      MatchesOn(x, y, z);
      MatchesBothWays(x, z);
    }
  }

  /** The state behaves as a map whose keys are compared by `Matches`. */
  lemma LookupUpdated(s: Entries, val: Sym, exp: Sym, other: Sym)
    ensures Lookup(Updated(s, val, exp), other) == if Matches(val, other) then Some(exp) else Lookup(s, other)
  {
    hide Matches;
    if Matches(val, other) {
      LookupWritten(s, val, exp, other);
    } else {
      LookupOther(s, val, exp, other);
    }
  }

  lemma LookupWritten(s: Entries, val: Sym, exp: Sym, other: Sym)
    requires Matches(val, other)
    ensures Lookup(Updated(s, val, exp), other) == Some(exp)
  {
    hide Matches;
    var n, s' := Position(s, val), Updated(s, val, exp);
    MatchesBothWays(val, other);
    forall i | 0 <= i < n
      ensures !Matches(s'[i].key, other)
    {
      if Matches(s[i].key, other) { MatchesOn(s[i].key, other, val); }
    }
    PositionIs(s', other, n);
  }

  lemma LookupOther(s: Entries, val: Sym, exp: Sym, other: Sym)
    requires !Matches(val, other)
    ensures Lookup(Updated(s, val, exp), other) == Lookup(s, other)
  {
    hide Matches;
    var n, m, s' := Position(s, val), Position(s, other), Updated(s, val, exp);
    if n < |s| && m == n {
      MatchesBothWays(s[n].key, val);
      MatchesOn(val, s[n].key, other);
    }
    PositionIs(s', other, if n < |s| || m < |s| then m else m + 1);
  }

  /** Removing a key that stands once: everything else is found as before. */
  lemma WithoutMiddle(front: Entries, e: Entry, back: Entries)
    requires Distinct(front + [e] + back)
    ensures Without(front + [e] + back, e.key) == front + back
  {
    var s := front + [e] + back;
    assert s[|front|] == e;
    MatchesItself(e.key);
    PositionIs(s, e.key, |front|);
  }

  /** Removing the temporaries leaves what is found under every other key. */
  lemma {:induction false} LookupLasting(s: Entries, val: Sym)
    requires !val.IsTemp()
    requires forall i :: 0 <= i < |s| ==> s[i].key.IsTemp() ==> !Matches(s[i].key, val)
    ensures Lookup(Lasting(s), val) == Lookup(s, val)
  {
    hide Lookup, Matches;
    if s != [] {
      var init, last := s[..|s| - 1], s[|s| - 1];
      assert forall i :: 0 <= i < |init| ==> init[i] == s[i];
      LookupLasting(init, val);
      assert s == init + [last];
      LookupLonger(init, last, val);
      LookupLonger(Lasting(init), last, val);
      assert Lasting(init) + [] == Lasting(init);
    }
  }

  lemma LookupLonger(s: Entries, e: Entry, val: Sym)
    ensures Lookup(s + [e], val)
         == if Lookup(s, val).Some? then Lookup(s, val) else if Matches(e.key, val) then Some(e.exp) else None
  {
    hide Matches;
    var n := Position(s, val);
    PositionIs(s + [e], val, if n < |s| || Matches(e.key, val) then n else n + 1);
  }

  lemma {:induction false} LastingHolds(s: Entries, e: Entry)
    ensures e in Lasting(s) <==> e in s && !e.key.IsTemp()
  {
    if s != [] {
      LastingHolds(s[..|s| - 1], e);
      assert s == s[..|s| - 1] + [s[|s| - 1]];
    }
  }

  class SymState {
    var state: Entries

    ghost predicate Valid()
      reads this
    {
      Distinct(state)
    }

    constructor (other: SymState?)
      requires other == null || other.Valid()
      ensures Valid() && state == if other == null then [] else other.state
    {
      state := if other == null then [] else other.state;
    }

    /** The expression kept for a value, if there is one. */
    method Get(val: Sym) returns (exp: Option<Sym>)
      ensures exp == Lookup(state, val)
    {
      for i := 0 to |state|
        invariant forall j :: 0 <= j < i ==> !Matches(state[j].key, val)
      {
        if Matches(state[i].key, val) {
          PositionIs(state, val, i);
          return Some(state[i].exp);
        }
      }
      return None;
    }

    method Query(val: Sym) returns (exp: Sym)
      ensures exp == Queried(state, val)
    {
      var found := Get(val);
      return if found.None? || found.value == Nothing then val else found.value;
    }

    /** Replaces the first matching entry in place, or adds one at the end. */
    method Update(val: Sym, exp: Sym)
      requires Valid()
      modifies this
      ensures Valid() && state == Updated(old(state), val, exp)
    {
      UpdatedIsDistinct(state, val, exp);
      for i := 0 to |state|
        invariant state == old(state)
        invariant forall j :: 0 <= j < i ==> !Matches(state[j].key, val)
      {
        if Matches(state[i].key, val) {
          PositionIs(state, val, i);
          state := state[i := Entry(val, exp)];
          return;
        }
      }
      state := state + [Entry(val, exp)];
    }

    /** Removes the first matching entry. */
    method Clear(val: Sym)
      modifies this
      ensures state == Without(old(state), val)
    {
      for i := 0 to |state|
        invariant state == old(state)
        invariant forall j :: 0 <= j < i ==> !Matches(state[j].key, val)
      {
        if Matches(state[i].key, val) {
          PositionIs(state, val, i);
          state := state[..i] + state[i + 1..];
          return;
        }
      }
    }

    method Clone() returns (copy: SymState)
      requires Valid()
      ensures fresh(copy) && copy.Valid() && copy.state == state
    {
      copy := new SymState(this);
    }

    /** Clears the temporaries one by one, walking over a copy of the keys. */
    method RemoveTempRegs()
      requires Valid()
      modifies this
      ensures Valid() && state == Lasting(old(state))
    {
      hide Matches, Without, Lasting, Distinct;
      var args := state;
      ClearNothing(args);
      for n := 0 to |args|
        invariant state == Cleared(args, n)
      {
        ClearNext(args, n);
        if args[n].key.IsTemp() { Clear(args[n].key); }
      }
      RestIsDistinct(args, |args|);
      ClearNothing(args);
    }
  }

  /** The state after the temporaries among the first `n` keys are cleared. */
  ghost function Cleared(s: Entries, n: nat): Entries
    requires n <= |s|
  {
    Lasting(s[..n]) + s[n..]
  }

  lemma ClearNothing(s: Entries)
    ensures Cleared(s, 0) == s && Cleared(s, |s|) == Lasting(s)
  {
    assert s[..|s|] == s;
  }

  lemma ClearNext(s: Entries, n: nat)
    requires Distinct(s) && n < |s|
    ensures Cleared(s, n + 1) == if s[n].key.IsTemp() then Without(Cleared(s, n), s[n].key) else Cleared(s, n)
  {
    hide Matches, Without, Distinct;
    RestIsDistinct(s, n);
    assert s[n..] == [s[n]] + s[n + 1..];
    assert s[..n + 1][..n] == s[..n];
    assert Cleared(s, n) == Lasting(s[..n]) + [s[n]] + s[n + 1..];
    if s[n].key.IsTemp() { WithoutMiddle(Lasting(s[..n]), s[n], s[n + 1..]); }
  }

  /** Clearing some of the temporaries keeps the keys distinct. */
  lemma {:induction false} RestIsDistinct(s: Entries, n: nat)
    requires Distinct(s) && n <= |s|
    ensures Distinct(Cleared(s, n))
    decreases n
  {
    hide Matches;
    if n > 0 {
      RestIsDistinct(s, n - 1);
      assert s[..n][..n - 1] == s[..n - 1];
      var kept := Lasting(s[..n - 1]);
      assert s[n - 1..] == [s[n - 1]] + s[n..];
      var before, after := kept + s[n - 1..], Lasting(s[..n]) + s[n..];
      assert if s[n - 1].key.IsTemp() then after == before[..|kept|] + before[|kept| + 1..] else after == before;
    } else {
      assert Lasting(s[..0]) + s[0..] == s;
    }
  }

  // ---------- Symbolic execution ----------

  /** The exceptions symbolic execution can end in. */
  datatype SymbolicError =
    | NoTarget   // a conditional jump through a register the state does not hold
    | NoNext     // a conditional jump with nothing behind it
    | NoValue    // an operation on a missing first operand
    | NoCopy     // a list was given a state to start from
    | NoState    // an empty list has no state to remove temporaries from

  /** Temporaries are named after their machine instruction. */
  function NameOf(insn: Insn, v: Var): Name {
    Name(v, if v.Temp? then Some(insn.ir.addr) else None)
  }

  function ArgSym(insn: Insn, arg: Arg): Sym {
    match arg
    case VarArg(v, size) => Val(NameOf(insn, v), size)
    case Const(val, size) => Number(Truncate(val, size), size)
    case Loc(at) => Place(at)
    case NoArg => Nothing
  }

  /** A register is replaced by the expression the state keeps for it. */
  function ArgIn(insn: Insn, arg: Arg, s: Entries): Sym {
    if arg.VarArg? then Resolve(s, ArgSym(insn, arg)) else ArgSym(insn, arg)
  }

  /** A jump target: a register must be in the state, and a number is a place in the code. */
  function TargetSym(insn: Insn, s: Entries): Sym {
    var c := ArgSym(insn, insn.c);
    var found :=
      if insn.c.Const? || insn.c.Loc? then c
      else match Lookup(s, c)
        case Some(exp) => exp
        case None => Nothing;
    if found.Number? then Place(IRAddr(found.num, 0)) else found
  }

  function JumpOf(insn: Insn, s: Entries): Result<Entries, SymbolicError> {
    if insn.a.Const? then
      Ok(if Truncate(insn.a.val, insn.a.size) != 0 then Updated(s, IP, TargetSym(insn, s)) else s)
    else if insn.Next().None? then Err(NoNext)
    else if TargetSym(insn, s) == Nothing then Err(NoTarget)
    else Ok(Updated(s, IP, Cond(ArgIn(insn, insn.a, s), TargetSym(insn, s), Place(insn.Next().value))))
  }

  /** The state after an instruction; unknown instructions leave it as it is. */
  function SymbolicOf(insn: Insn, s: Entries): Result<Entries, SymbolicError> {
    var a, b, c := ArgIn(insn, insn.a, s), ArgIn(insn, insn.b, s), ArgSym(insn, insn.c);
    match insn.op
    case NONE => Ok(s)
    case UNK => Ok(s)
    case STR => Ok(Updated(s, c, a))
    case STM => Ok(Updated(s, Ptr(Queried(s, c), ArgSize(insn.a)), a))
    case LDM => Ok(Updated(s, c, Ptr(a, ArgSize(insn.c))))
    case JCC => JumpOf(insn, s)
    case _ => if a == Nothing then Err(NoValue) else Ok(Updated(s, c, Apply(insn.op, a, b)))
  }

  function SymbolicOfAll(code: seq<Insn>): Result<Entries, SymbolicError> {
    if code == [] then Ok([])
    else match SymbolicOfAll(code[..|code| - 1])
      case Err(e) => Err(e)
      case Ok(s) => SymbolicOf(code[|code| - 1], s)
  }

  lemma SymbolicOfNext(code: seq<Insn>, n: nat)
    requires n < |code|
    ensures SymbolicOfAll(code[..n + 1]) ==
      match SymbolicOfAll(code[..n])
      case Err(e) => Err(e)
      case Ok(s) => SymbolicOf(code[n], s)
  {
    assert code[..n + 1][..n] == code[..n];
  }

  method ArgToSymbolic(insn: Insn, arg: Arg, state: SymState) returns (exp: Sym)
    ensures exp == ArgIn(insn, arg, state.state)
  {
    exp := ArgSym(insn, arg);
    if arg.VarArg? {
      var found := state.Get(exp);
      if found.Some? { exp := found.value; }
    }
  }

  /** Executes one instruction on a copy of the state. */
  method ToSymbolic(insn: Insn, inState: SymState?) returns (out: Result<SymState, SymbolicError>)
    requires inState != null ==> inState.Valid()
    ensures out.Ok? ==> fresh(out.value) && out.value.Valid()
    ensures var r := SymbolicOf(insn, if inState == null then [] else inState.state);
      if out.Ok? then r == Ok(out.value.state) else r == Err(out.error)
  {
    hide Lookup, Updated, Resolve, Queried, Distinct;
    var state := new SymState(inState);
    if insn.op in {NONE, UNK} { return Ok(state); }
    var a := ArgToSymbolic(insn, insn.a, state);
    var b := ArgToSymbolic(insn, insn.b, state);
    var c := ArgSym(insn, insn.c);
    if insn.op == STR {
      state.Update(c, a);
    } else if insn.op == STM {
      var key := state.Query(c);
      state.Update(Ptr(key, ArgSize(insn.a)), a);
    } else if insn.op == LDM {
      state.Update(c, Ptr(a, ArgSize(insn.c)));
    } else if insn.op == JCC {
      var error := JumpToSymbolic(insn, a, state);
      if error.Some? { return Err(error.value); }
    } else {
      if a == Nothing { return Err(NoValue); }
      state.Update(c, Apply(insn.op, a, b));
    }
    return Ok(state);
  }

  method JumpToSymbolic(insn: Insn, a: Sym, state: SymState) returns (error: Option<SymbolicError>)
    requires state.Valid() && a == ArgIn(insn, insn.a, state.state)
    modifies state
    ensures state.Valid()
    ensures JumpOf(insn, old(state.state)) == if error.Some? then Err(error.value) else Ok(state.state)
  {
    hide Lookup, Updated, Resolve, Queried, Distinct;
    var target := ArgSym(insn, insn.c);
    if !insn.c.Const? && !insn.c.Loc? {
      var found := state.Get(target);
      target := if found.Some? then found.value else Nothing;
    }
    if target.Number? { target := Place(IRAddr(target.num, 0)); }
    if insn.a.Const? {
      if Truncate(insn.a.val, insn.a.size) != 0 { state.Update(IP, target); }
    } else {
      if insn.Next().None? { return Some(NoNext); }
      if target == Nothing { return Some(NoTarget); }
      state.Update(IP, Cond(a, target, Place(insn.Next().value)));
    }
    return None;
  }

  /** Executes a list from the empty state; the temporaries are removed unless asked for. */
  method ListToSymbolic(code: seq<Insn>, inState: SymState?, tempRegs: bool)
    returns (out: Result<SymState?, SymbolicError>)
    ensures inState != null ==> out == Err(NoCopy)
    ensures inState == null && code == [] ==> out == if tempRegs then Ok(null) else Err(NoState)
    ensures inState == null && code != [] ==>
      match SymbolicOfAll(code)
      case Err(e) => out == Err(e)
      case Ok(s) => out.Ok? && out.value != null && out.value.state == if tempRegs then s else Lasting(s)
  {
    hide Lasting, SymbolicOf, Distinct;
    if inState != null { return Err(NoCopy); }
    var state: SymState? := null;
    assert code[..|code|] == code;
    for n := 0 to |code|
      invariant state != null ==> fresh(state) && state.Valid()
      invariant state != null <==> n > 0
      invariant SymbolicOfAll(code[..n]) == Ok(if state == null then [] else state.state)
    {
      SymbolicOfNext(code, n);
      var next := ToSymbolic(code[n], state);
      if next.Err? {
        StopsThere(code, n, next.error);
        return Err(next.error);
      }
      state := next.value;
    }
    if !tempRegs {
      if state == null { return Err(NoState); }
      state.RemoveTempRegs();
    }
    return Ok(state);
  }

  lemma {:induction false} StopsThere(code: seq<Insn>, n: nat, e: SymbolicError)
    requires n < |code| && SymbolicOfAll(code[..n + 1]) == Err(e)
    ensures SymbolicOfAll(code) == Err(e)
    decreases |code|
  {
    if n + 1 < |code| {
      var init := code[..|code| - 1];
      assert init[..n + 1] == code[..n + 1];
      StopsThere(init, n, e);
    } else {
      assert code[..n + 1] == code;
    }
  }
}
