/** Thrown codes on their way through the callers: `try` hands them on unchanged. */
module ThrownCodes {
  import opened Int64
  import opened Values
  import opened Interpreter
  import opened Lowering
  import opened LoweringMeaning
  import S = Source

  /** The function of that name only tries to call another one, and returns what it returns. */
  ghost predicate Tries(p: S.Program, name: string, callee: string) {
    var i := S.FindFunction(S.Functions(p), name);
    i.Some? && callee != "" && S.Functions(p)[i.value].body == [S.Return(S.Try(S.Call(callee, [])))]
  }

  ghost predicate Throws(p: S.Program, name: string, code: i64) {
    var i := S.FindFunction(S.Functions(p), name);
    i.Some? && S.Functions(p)[i.value].body == [S.Throw(S.Literal(Int(code)))]
  }

  /** Each function tries the next one, and the last one throws. */
  ghost predicate TryChain(p: S.Program, names: seq<string>, code: i64) {
    && names != [] && Throws(p, names[|names| - 1], code)
    && forall k :: 0 <= k < |names| - 1 ==> Tries(p, names[k], names[k + 1])
  }

  lemma OneStatement(m: Machine, lexical: bool, p: S.Program, s: S.Stmt, st: S.State)
    ensures S.ExecAll(m, lexical, p, [s], st) == S.Exec(m, lexical, p, s, st)
  {
    assert [s][1..] == [];
    hide S.Exec;
  }

  /** Calling a function of one statement runs that statement. */
  lemma CallRuns(m: Machine, lexical: bool, p: S.Program, name: string, s: S.Stmt, trace: Trace, clock: nat) returns (st: S.State)
    requires clock > 0
    requires var i := S.FindFunction(S.Functions(p), name); i.Some? && S.Functions(p)[i.value].body == [s]
    ensures st.trace == trace + [Event(name, [])] && st.clock == clock - 1
    ensures var r := S.Exec(m, lexical, p, s, st);
            r.Exit? ==> S.CallNamed(m, lexical, p, name, [], trace, clock) == Done(r.value, r.st.env[0], r.st.trace, r.st.clock)
  {
    var f := S.Functions(p)[S.FindFunction(S.Functions(p), name).value];
    st := S.State([Bind(f.params, [])], trace + [Event(name, [])], clock - 1);
    OneStatement(m, lexical, p, s, st);
    hide S.Exec, S.ExecAll;
    assert S.RunSource(m, lexical, p, f, [], st.trace, st.clock) == S.RunBody(m, lexical, p, [s], st.env[0], st.trace, st.clock);
  }

  lemma ThrowReturns(m: Machine, lexical: bool, p: S.Program, name: string, code: i64, trace: Trace, clock: nat)
    requires Throws(p, name, code) && clock > 0
    ensures S.CallNamed(m, lexical, p, name, [], trace, clock).Done?
    ensures S.CallNamed(m, lexical, p, name, [], trace, clock).value == Int(ThrownCode(code))
  {
    var st := CallRuns(m, lexical, p, name, S.Throw(S.Literal(Int(code))), trace, clock);
    assert S.Eval(m, lexical, p, S.Literal(Int(code)), st) == S.Next(Int(code), st);
  }

  /** A negative result of the call that is tried becomes the result of the caller. */
  lemma TryReturns(m: Machine, lexical: bool, p: S.Program, name: string, callee: string, v: i64, trace: Trace, clock: nat)
    requires Tries(p, name, callee) && clock > 0 && v < 0
    requires var r := S.CallNamed(m, lexical, p, callee, [], trace + [Event(name, [])], clock - 1); r.Done? && r.value == Int(v)
    ensures var r := S.CallNamed(m, lexical, p, name, [], trace, clock); r.Done? && r.value == Int(v)
  {
    var call := S.Call(callee, []);
    var st := CallRuns(m, lexical, p, name, S.Return(S.Try(call)), trace, clock);
    hide S.CallNamed;
    assert S.EvalArgs(m, lexical, p, [], st) == S.Values([], st);
    var r := S.Eval(m, lexical, p, call, st);
    assert r.Next? && r.value == Int(v);
    assert S.Eval(m, lexical, p, S.Try(call), st) == S.Exit(Int(v), r.st);
  }

  /** Through any number of tries, the thrown code arrives as it was thrown. */
  lemma {:induction false} ThrownThroughTries(m: Machine, lexical: bool, p: S.Program, names: seq<string>, code: i64, trace: Trace, clock: nat)
    requires TryChain(p, names, code) && clock >= |names|
    ensures var r := S.CallNamed(m, lexical, p, names[0], [], trace, clock); r.Done? && r.value == Int(ThrownCode(code))
    decreases |names|
  {
    hide S.CallNamed, Tries, Throws;
    if |names| == 1 {
      ThrowReturns(m, lexical, p, names[0], code, trace, clock);
    } else {
      forall k | 0 <= k < |names[1..]| - 1 ensures Tries(p, names[1..][k], names[1..][k + 1]) {
        assert names[1..][k] == names[k + 1];
      }
      ThrownThroughTries(m, lexical, p, names[1..], code, trace + [Event(names[0], [])], clock - 1);
      TryReturns(m, lexical, p, names[0], names[1], ThrownCode(code), trace, clock);
    }
  }

  /**
   In the lowered programs too; the outermost caller can tell two thrown codes apart, unless one is the
   complement of the other, as 0 and -1 are.
   */
  lemma ThrownCodesArrive(m: Machine, p: S.Program, q: S.Program, names: seq<string>, a: i64, b: i64, trace: Trace, clock: nat)
    requires S.UserProgram(p) && S.UserProgram(q) && TryChain(p, names, a) && TryChain(q, names, b) && clock >= |names|
    ensures var r := CallOut(m, LowerProgram(p), names[0], [], trace, clock);
            var s := CallOut(m, LowerProgram(q), names[0], [], trace, clock);
            && r.Done? && r.value == Int(ThrownCode(a)) && s.Done?
            && (r.value == s.value <==> a == b || a + b == -1)
  {
    hide S.CallNamed, Throws, Tries, CallOut, S.UserProgram, ThrownCode;
    ThrownThroughTries(m, false, p, names, a, trace, clock);
    ThrownThroughTries(m, false, q, names, b, trace, clock);
    NamedCallMeaning(m, p, names[0], [], trace, clock);
    NamedCallMeaning(m, q, names[0], [], trace, clock);
    ThrownCodesCoincide(a, b);
  }
}
