// A function body through the lowering and the encoder.
module Compiler {
  import opened Words
  import opened Lists
  import opened Ropes
  import opened Ir
  import opened Statements
  import opened LowerStmt
  import opened Lowerable
  import opened Functions
  import opened GenFlat
  import opened Compiled
  import opened EndToEnd
  import L = Lowerer
  import E = Encoder
  import M = Machine
  import F = FlatIr

  // Compilation fails exactly when the lowering reports an error or runs out of
  // labels; otherwise it makes the code the theorems are about.  For a body in which
  // nothing has two places an error is a case outside every switch, or a switch with
  // a value twice or two defaults.
  method CompileFunction(body: List<Stmt>, ret: Ty, env: Env) returns (ok: bool, code: seq<M.Instr>)
    ensures var ls := FunctionList(body, ret).1; ok <==> ls.ok && ls.next <= L.LABEL_LIMIT
    ensures (forall t :: DefCount(body, t) <= 1) ==> (ok <==> Lowers(body) && FunctionList(body, ret).1.next <= L.LABEL_LIMIT)
    ensures ok ==> code == CompiledFunction(body, ret, env)
  {
    hide LowerList, ListCode, Flat, Lowers, DefCount;
    if forall t :: DefCount(body, t) <= 1 { LowersWhen(body, Context(0, 0, ret)); }
    var lowerer := new L.Lowerer(ret);
    var list := lowerer.LowerStatement(body);
    ok, code := !lowerer.failed, [];
    if ok {
      var encoder := new E.Encoder(env);
      encoder.EncodeFunction(list);
      code := encoder.code;
      var r := FunctionList(body, ret).0;
      E.CodeOfList(r, env);
      Joined(r, env);
    }
  }

  lemma {:induction false} Joined(r: Rope<F.Inst>, env: Env)
    ensures Flat(FunctionCode(r, env)) == Flat(ListCode(r, env)) + Flat(Epilogue())
  {
  }
}
