/** NIR: the register code the lowerer emits, restricted to its memory-free instructions. */
module Nir {
  import opened Basics
  import opened Values

  type Reg = nat

  datatype Instr =
    | Const(dest: Reg, literal: Value)
    | Load(dest: Reg, name: string)
    | Store(name: string, arg: Reg)
    | Unary(dest: Reg, uop: UnOp, arg: Reg)
    | Binary(dest: Reg, bop: BinOp, left: Reg, right: Reg)
    | Cast(dest: Reg, typeName: string, arg: Reg)
    | Call(dest: Reg, callee: string, args: seq<Reg>)
    | CheckNonNull(arg: Reg)
    | CheckBounds(index: Reg, length: Reg)
    | Try(dest: Reg, arg: Reg)
    | Throw(arg: Reg)
    | Jump(target: nat)
    | JumpIfFalse(arg: Reg, target: nat)
    | Return(value: Option<Reg>)
    | Nop
  {
    /** The operand registers, in operand order. */
    function Args(): seq<Reg> {
      match this
      case Store(_, a) => [a]
      case Unary(_, _, a) => [a]
      case Binary(_, _, l, r) => [l, r]
      case Cast(_, _, a) => [a]
      case Call(_, _, s) => s
      case CheckNonNull(a) => [a]
      case CheckBounds(i, n) => [i, n]
      case Try(_, a) => [a]
      case Throw(a) => [a]
      case JumpIfFalse(a, _) => [a]
      case Return(v) => if v.Some? then [v.value] else []
      case _ => []
    }

    predicate HasDest() {
      Const? || Load? || Unary? || Binary? || Cast? || Call? || Try?
    }

    predicate IsJump() {
      Jump? || JumpIfFalse?
    }
  }

  datatype Function = Function(
    name: string,
    params: seq<string>,
    code: seq<Instr>,
    nextReg: nat,
    isExtern: bool)

  datatype Program = Program(entry: Function, functions: seq<Function>)

  /** The first function of that name that has a body to run. */
  function FindUser(functions: seq<Function>, name: string): (i: Option<nat>)
    ensures i.Some? ==> i.value < |functions| && functions[i.value].name == name && !functions[i.value].isExtern
    ensures forall k :: 0 <= k < (if i.Some? then i.value else |functions|) ==> functions[k].name != name || functions[k].isExtern
  {
    if functions == [] then None
    else if functions[0].name == name && !functions[0].isExtern then Some(0)
    else
      var rest := FindUser(functions[1..], name);
      if rest.Some? then Some(rest.value + 1) else None
  }

  /** A transformation of functions that keeps names and externs keeps what every call finds. */
  lemma {:induction false} FindUserKept(fs: seq<Function>, gs: seq<Function>, name: string)
    requires |fs| == |gs|
    requires forall i :: 0 <= i < |fs| ==> gs[i].name == fs[i].name && gs[i].isExtern == fs[i].isExtern
    ensures FindUser(fs, name) == FindUser(gs, name)
  {
    if fs != [] {
      FindUserKept(fs[1..], gs[1..], name);
    }
  }

  /** Each register has at most one defining instruction. */
  ghost predicate SingleDef(code: seq<Instr>) {
    forall i, j ::
      0 <= i < j < |code| && code[i].HasDest() && code[j].HasDest() ==> code[i].dest != code[j].dest
  }

  // ----- passes over a whole program -----

  function MapFunction(fn: Function, pass: seq<Instr> -> seq<Instr>): Function {
    fn.(code := pass(fn.code))
  }

  /** Every function's code, and the entry's, put through the same pass. */
  function MapProgram(p: Program, pass: seq<Instr> -> seq<Instr>): Program {
    Program(MapFunction(p.entry, pass),
            seq(|p.functions|, i requires 0 <= i < |p.functions| => MapFunction(p.functions[i], pass)))
  }

  lemma MappedFind(p: Program, pass: seq<Instr> -> seq<Instr>, name: string)
    ensures FindUser(MapProgram(p, pass).functions, name) == FindUser(p.functions, name)
  {
    FindUserKept(p.functions, MapProgram(p, pass).functions, name);
  }
}
