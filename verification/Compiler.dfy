/** The compiler as it is written: one pass over the tree, appending bytes, keeping a table
    of locals with their scope depths, and patching jumps once their targets are known. It
    is proved to produce exactly the code of module CodeGen, and to report an error exactly
    when the checks of module Checks fail. */
module Compiler {
  import opened Values
  import opened Syntax
  import opened Semantics
  import opened Bytecode
  import opened CodeGen
  import opened Checks
  import opened Lengths
  import opened Patching
  import opened Stages
  import opened Assembly

  /** A function whose compilation is suspended while one inside it is compiled. */
  datatype FunctionContext = FunctionContext(
    name: Name, code: seq<Byte>, constants: seq<MValue>, locals: seq<Slot>)

  datatype VariableOperation = Get | Put | PutIf(test: nat)

  lemma Assoc<T>(a: seq<T>, b: seq<T>, c: seq<T>)
    ensures a + b + c == a + (b + c)
  {
  }

  /** A loop's recorded jumps lie in the code, on the right side of their targets. */
  predicate Patchable(l: LoopRecord, length: nat) {
    && Within(l.breaks, 0, length) && Within(l.breaks, 0, l.breakTarget)
    && Within(l.continues, 0, length)
    && (if l.continueForward then Within(l.continues, 0, l.continueTarget)
        else forall i :: 0 <= i < |l.continues| ==> l.continueTarget <= l.continues[i] + 3)
  }

  class Compiler {
    // the function being compiled
    var name: Name
    var code: seq<Byte>
    var constants: seq<MValue>
    var locals: seq<Slot>
    // the functions around it, outermost first
    var outer: seq<FunctionContext>
    var loops: seq<LoopRecord>
    var scopeDepth: nat
    var errors: seq<CompileError>

    constructor ()
      ensures outer == [] && loops == [] && scopeDepth == 0 && errors == []
      ensures name == "main" && code == [] && constants == [] && locals == [Slot(Local("this", false), 0)]
    {
      name, code, constants, locals := "main", [], [], [Slot(Local("this", false), 0)];
      outer, loops, scopeDepth, errors := [], [], 0, [];
    }

    /** The part of the state that statements work on. */
    ghost function Now(): Stage
      reads this
    {
      Stage(code, constants, locals, loops, scopeDepth, errors)
    }

    // ----- writing code -----

    method EmitJump(op: Byte) returns (start: nat)
      modifies `code
      ensures code == old(code) + JumpBytes(op, 0) && start == |old(code)| + 1
    {
      code := code + [op];
      var zero := EncodeIntLoop(0, 3);
      code := code + zero;
      start := |code| - 3;
    }

    method EmitLoop(loopStart: nat)
      requires loopStart <= |code|
      modifies `code, `errors
      ensures var length := |old(code)| + 4 - loopStart;
              && code == old(code) + JumpBytes(OP_LOOP, length)
              && errors == old(errors) + if length > UINT24_MAX then [JumpWidthExceedsLimit] else []
    {
      code := code + [OP_LOOP];
      var length := |code| - loopStart + 3;
      if length > UINT24_MAX {
        errors := errors + [JumpWidthExceedsLimit];
      }
      var operand := EncodeIntLoop(length, 3);
      code := code + operand;
    }

    /** Overwrite the bytes from `position` on, one after the other. */
    method Patch(bytes: seq<Byte>, position: nat)
      requires position + |bytes| <= |code|
      modifies `code
      ensures code == old(code)[..position] + bytes + old(code)[position + |bytes|..]
    {
      for i := 0 to |bytes|
        invariant |code| == |old(code)|
        invariant code == old(code)[..position] + bytes[..i] + old(code)[position + i..]
      {
        code := code[position + i := bytes[i]];
      }
    }

    method PatchJump(start: nat, target: nat)
      requires start + 3 <= |code| && start + 3 <= target
      modifies `code, `errors
      ensures code == PatchOne(old(code), 0, start, target - start - 3)
      ensures errors == old(errors) + if target - start - 3 > UINT24_MAX then [JumpWidthExceedsLimit] else []
    {
      var jump := target - start - 3;
      if jump > UINT24_MAX {
        errors := errors + [JumpWidthExceedsLimit];
      }
      var operand := EncodeIntLoop(jump, 3);
      Patch(operand, start);
    }

    method PatchLoop(start: nat, target: nat)
      requires start + 3 <= |code| && target <= start + 3
      modifies `code, `errors
      ensures code == PatchOne(old(code), 0, start, start + 3 - target)
      ensures errors == old(errors) + if start + 3 - target > UINT24_MAX then [JumpWidthExceedsLimit] else []
    {
      var length := start - target + 3;
      if length > UINT24_MAX {
        errors := errors + [JumpWidthExceedsLimit];
      }
      var operand := EncodeIntLoop(length, 3);
      Patch(operand, start);
    }

    /** Give the jumps whose operands are at `holes` their distance to a target ahead. */
    method PatchJumps(holes: seq<nat>, target: nat)
      requires Within(holes, 0, |code|) && Within(holes, 0, target)
      modifies `code, `errors
      ensures code == PatchAll(old(code), 0, holes, target, false)
      ensures old(errors) <= errors
      ensures InReach(holes, target, false) ==> errors == old(errors)
    {
      hide PatchOne;
      for i := 0 to |holes|
        invariant |code| == |old(code)| && old(errors) <= errors
        invariant PatchAll(code, 0, holes[i..], target, false) == PatchAll(old(code), 0, holes, target, false)
        invariant InReach(holes, target, false) ==> errors == old(errors)
      {
        PatchJump(holes[i], target);
      }
      assert holes[|holes|..] == [];
    }

    /** The same for jumps back. */
    method PatchLoops(holes: seq<nat>, target: nat)
      requires Within(holes, 0, |code|) && forall i :: 0 <= i < |holes| ==> target <= holes[i] + 3
      modifies `code, `errors
      ensures code == PatchAll(old(code), 0, holes, target, true)
      ensures old(errors) <= errors
      ensures InReach(holes, target, true) ==> errors == old(errors)
    {
      hide PatchOne;
      for i := 0 to |holes|
        invariant |code| == |old(code)| && old(errors) <= errors
        invariant PatchAll(code, 0, holes[i..], target, true) == PatchAll(old(code), 0, holes, target, true)
        invariant InReach(holes, target, true) ==> errors == old(errors)
      {
        PatchLoop(holes[i], target);
      }
      assert holes[|holes|..] == [];
    }

    /** Give every break and continue of the innermost loop its distance. */
    method PatchLoopContext()
      requires loops != [] && Patchable(loops[|loops| - 1], |code|)
      modifies `code, `errors
      ensures var l := loops[|loops| - 1];
              code == PatchAll(PatchAll(old(code), 0, l.breaks, l.breakTarget, false), 0, l.continues, l.continueTarget, !l.continueForward)
      ensures old(errors) <= errors
      ensures var l := loops[|loops| - 1];
              InReach(l.breaks, l.breakTarget, false) && InReach(l.continues, l.continueTarget, !l.continueForward)
              ==> errors == old(errors)
    {
      hide PatchAll;
      var l := loops[|loops| - 1];
      PatchJumps(l.breaks, l.breakTarget);
      if l.continueForward {
        PatchJumps(l.continues, l.continueTarget);
      } else {
        PatchLoops(l.continues, l.continueTarget);
      }
    }

    method EmitPops(count: nat)
      modifies `code
      ensures code == old(code) + Pops(count)
    {
      var batches, remainder := count / 255, count % 255;
      for i := 0 to batches
        invariant code + Pops(count - 255 * i) == old(code) + Pops(count)
      {
        assert Pops(count - 255 * i) == [OP_POP_N, 255] + Pops(count - 255 * (i + 1));
        code := code + [OP_POP_N];
        code := code + [255];
      }
      if remainder > 0 {
        code := code + [OP_POP_N];
        code := code + [remainder];
      }
    }

    /** Load a new constant; past the last index the instruction is not written. */
    method WriteConstant(v: MValue)
      modifies `code, `constants
      ensures constants == old(constants) + [v]
      ensures code == old(code) + ConstBytes(|old(constants)|)
    {
      constants := constants + [v];
      var index := |constants| - 1;
      if index <= 255 {
        code := code + [OP_CONSTANT];
        code := code + [index];
      } else if index <= UINT24_MAX {
        code := code + [OP_CONSTANT_LONG];
        var operand := EncodeIntLoop(index, 3);
        code := code + operand;
      }
    }

    method EmitReturn()
      modifies `code
      ensures code == old(code) + [OP_NULL, OP_RETURN]
    {
      code := code + [OP_NULL];
      code := code + [OP_RETURN];
    }

    // ----- scopes -----

    /** Drop the locals deeper than the current scope and emit the pops for them. */
    method CleanScopeGarbage()
      modifies `code, `locals
      ensures locals == old(locals)[..Below(old(locals), scopeDepth + 1)]
      ensures code == old(code) + Pops(|old(locals)| - |locals|)
    {
      hide Below;
      var removed := 0;
      while locals != [] && locals[|locals| - 1].depth > scopeDepth
        invariant code == old(code) && locals <= old(locals) && removed == |old(locals)| - |locals|
        invariant Below(locals, scopeDepth + 1) == Below(old(locals), scopeDepth + 1)
        decreases |locals|
      {
        removed := removed + 1;
        locals := locals[..|locals| - 1];
      }
      BelowIs(locals, scopeDepth + 1, |locals|);
      assert Pops(0) == [];
      if removed != 0 {
        EmitPops(removed);
      }
    }

    method EndScope()
      requires scopeDepth > 0
      modifies `scopeDepth, `code, `locals
      ensures scopeDepth == old(scopeDepth) - 1
      ensures locals == old(locals)[..Below(old(locals), old(scopeDepth))]
      ensures code == old(code) + Pops(|old(locals)| - |locals|)
      ensures Below(old(locals), old(scopeDepth)) == |old(locals)| ==> locals == old(locals) && code == old(code)
    {
      scopeDepth := scopeDepth - 1;
      CleanScopeGarbage();
    }

    /** Emit the pops for the locals deeper than `depth`, and keep them in the table. */
    method PopLocals(depth: nat)
      requires Table(locals, scopeDepth)
      modifies `code
      ensures code == old(code) + Pops(|locals| - Below(locals, depth + 1))
    {
      var removed, i := 0, |locals|;
      ghost var n := Below(locals, depth + 1);
      while i > 0
        invariant 0 <= i <= |locals|
        invariant removed == |locals| - (if i >= n then i else n)
      {
        i := i - 1;
        if locals[i].depth > depth {
          removed := removed + 1;
        }
      }
      if removed != 0 {
        EmitPops(removed);
      }
    }

    method ResolveLocal(ident: Name) returns (slot: Option<nat>)
      ensures slot == Resolve(Decls(locals), ident)
    {
      var i := |locals|;
      while i > 0
        invariant 0 <= i <= |locals|
        invariant ResolveBelow(Decls(locals), ident, i) == Resolve(Decls(locals), ident)
      {
        i := i - 1;
        if locals[i].decl.name == ident {
          return Some(i);
        }
      }
      return None;
    }

    /** Add a local to the current scope. The scan for a redefinition runs down to the first
        slot of a shallower scope; slot 0 is one, so it ends there at the latest. */
    method DeclareVariable(decl: Local)
      requires Table(locals, scopeDepth)
      modifies `locals, `errors
      ensures Table(locals, scopeDepth)
      ensures old(errors) <= errors
      ensures errors == old(errors) <==> AcceptsDeclaration(decl.name, ScopeOf(old(locals), scopeDepth))
      ensures errors == old(errors) ==> locals == old(locals) + [Slot(decl, scopeDepth)]
      ensures locals == old(locals) || locals == old(locals) + [Slot(decl, scopeDepth)]
    {
      hide Below;
      var i := |locals| - 1;
      while true
        invariant 0 <= i < |locals|
        invariant locals == old(locals) && errors == old(errors)
        invariant forall j :: i < j < |locals| ==> locals[j].depth >= scopeDepth && locals[j].decl.name != decl.name
        decreases i
      {
        if locals[i].depth < scopeDepth {
          break;
        }
        if locals[i].decl.name == decl.name {
          assert Decls(locals)[i].name == decl.name;
          errors := errors + [LocalRedefinition];
          return;
        }
        i := i - 1;
      }
      BelowIs(locals, scopeDepth, i + 1);
      assert forall j :: 0 <= j < |locals| && locals[j].depth == scopeDepth ==> locals[j].decl.name != decl.name;
      TableGrows(locals, scopeDepth, decl);
      if |locals| > UINT24_MAX {
        errors := errors + [LocalCountExceedsLimit];
      }
      locals := locals + [Slot(decl, scopeDepth)];
    }

    // ----- variables -----

    method WriteVariable(op: Byte, value: nat, test: nat)
      modifies `code
      ensures code == old(code) + (if value <= 255 then [op, value] else [op] + EncodeInt(value, 3))
                      + (if test != 0 then EncodeInt(test, 8) else [])
    {
      if value > 255 {
        code := code + [op];
        var operand := EncodeIntLoop(value, 3);
        code := code + operand;
      } else {
        code := code + [op];
        code := code + [value];
      }
      if test != 0 {
        var word := EncodeIntLoop(test, 8);
        code := code + word;
      }
    }

    /** Read or store a local of the current function. Storing to one that is not mut is an
        error, but the store is written all the same. Upvalues and globals, the other two
        things a name can stand for, are not part of this class. */
    method NamedVariable(ident: Name, op: VariableOperation)
      requires op.PutIf? ==> op.test != 0
      modifies `code, `errors
      ensures Resolve(Decls(locals), ident).Some? ==>
                var slot := SlotOf(Decls(locals), ident);
                && code == old(code) + (match op
                                        case Get => GetBytes(slot)
                                        case Put => SetBytes(slot)
                                        case PutIf(test) => SetIfBytes(slot, test))
                && errors == old(errors) + if !op.Get? && !IsMutable(Decls(locals), ident) then [ImmutableMutation] else []
      ensures Resolve(Decls(locals), ident).None? ==> code == old(code) && errors == old(errors)
    {
      hide ResolveBelow, GetBytes, SetBytes, SetIfBytes, Decls;
      var resolved := ResolveLocal(ident);
      if resolved.Some? {
        var slot := resolved.value;
        DeclAt(locals, slot);
        if !op.Get? && !locals[slot].decl.mut {
          errors := errors + [ImmutableMutation];
        }
        EmitVariable(op, slot);
      }
    }

    /** The short or the long instruction, by slot. */
    method EmitVariable(op: VariableOperation, slot: nat)
      requires op.PutIf? ==> op.test != 0
      modifies `code
      ensures code == old(code) + (match op
                                   case Get => GetBytes(slot)
                                   case Put => SetBytes(slot)
                                   case PutIf(test) => SetIfBytes(slot, test))
    {
      hide EncodeInt;
      var long := slot > 255;
      match op
      case Get => WriteVariable(if long then OP_GET_LOCAL_LONG else OP_GET_LOCAL, slot, 0);
      case Put => WriteVariable(if long then OP_SET_LOCAL_LONG else OP_SET_LOCAL, slot, 0);
      case PutIf(test) => WriteVariable(if long then OP_SET_IF_LOCAL_LONG else OP_SET_IF_LOCAL, slot, test);
    }

    /** The end of a compound store: `bytes` is what the caller writes before the store. */
    method SetLvalue(target: Expr, bytes: seq<Byte>)
      requires errors == [] && target.Ident? ==> Resolve(Decls(locals), target.name).Some?
      modifies `code, `errors
      ensures errors == [] && target.Ident? ==> code == old(code) + bytes + StoreIf(Decls(locals), target.name)
      ensures old(code) <= code && old(errors) <= errors
      ensures old(errors) == [] ==> (errors == [] <==> AcceptsStore(target, Decls(locals)))
    {
      if target.Ident? {
        code := code + bytes;
        NamedVariable(target.name, PutIf(IS_PRIMITIVE_ADDRESS));
      } else {
        errors := errors + [IllegalLvalue];
      }
    }

    /** Keep the value on top and store a copy of it. */
    method StoreBack(target: Expr)
      requires errors == [] && target.Ident? ==> Resolve(Decls(locals), target.name).Some?
      modifies `code, `errors
      ensures errors == [] && target.Ident? ==> code == old(code) + WriteBack(target, Decls(locals))
      ensures old(code) <= code && old(errors) <= errors
      ensures old(errors) == [] ==> (errors == [] <==> AcceptsStore(target, Decls(locals)))
    {
      hide AcceptsStore;
      code := code + [OP_SAVE_SLOT];
      SetLvalue(target, [OP_PUSH_SAVED_SLOT]);
    }

    // ----- expressions -----

    method CompileExpr(e: Expr)
      requires errors == [] ==> ModelledE(e, Decls(locals))
      modifies `code, `constants, `errors
      ensures old(code) <= code && old(errors) <= errors
      ensures old(errors) == [] ==> (errors == [] <==> AcceptsE(e, Decls(locals)))
      ensures errors == [] ==> code == old(code) + CodeE(e, Decls(locals), |old(constants)|)
      ensures errors == [] ==> constants == old(constants) + ConstsE(e)
      decreases e, 1
    {
      match e
      case NumberLit(n) => WriteConstant(NumV(n));
      case StringLit(s) => WriteConstant(StrV(s));
      case BoolLit(b) => code := code + [if b then OP_TRUE else OP_FALSE];
      case NullLit => code := code + [OP_NULL];
      case Ident(ident) => NamedVariable(ident, Get);
      case PrefixE(_, _) => CompilePrefix(e);
      case PostfixE(_, _) => CompilePostfix(e);
      case InfixE(_, _, _) => CompileInfix(e);
      case Assign(_, _) => CompileAssign(e);
      case Call(_, _) => CompileCall(e);
    }

    method CompilePrefix(e: Expr)
      requires e.PrefixE? && (errors == [] ==> ModelledE(e, Decls(locals)))
      modifies `code, `constants, `errors
      ensures old(code) <= code && old(errors) <= errors
      ensures old(errors) == [] ==> (errors == [] <==> AcceptsE(e, Decls(locals)))
      ensures errors == [] ==> code == old(code) + CodeE(e, Decls(locals), |old(constants)|)
      ensures errors == [] ==> constants == old(constants) + ConstsE(e)
      decreases e, 0
    {
      CompileExpr(e.operand);
      code := code + [PrefixOpcode(e.pre)];
      if e.pre.Increment? || e.pre.Decrement? {
        StoreBack(e.operand);
      }
    }

    method CompilePostfix(e: Expr)
      requires e.PostfixE? && (errors == [] ==> ModelledE(e, Decls(locals)))
      modifies `code, `constants, `errors
      ensures old(code) <= code && old(errors) <= errors
      ensures old(errors) == [] ==> (errors == [] <==> AcceptsE(e, Decls(locals)))
      ensures errors == [] ==> code == old(code) + CodeE(e, Decls(locals), |old(constants)|)
      ensures errors == [] ==> constants == old(constants) + ConstsE(e)
      decreases e, 0
    {
      CompileExpr(e.operand);
      code := code + [OP_SAVE_SLOT];
      code := code + [PostfixOpcode(e.post)];
      SetLvalue(e.operand, []);
      code := code + [OP_PUSH_SAVED_SLOT];
    }

    /** The parts of an infix expression. */
    static lemma InfixParts(e: Expr, decls: seq<Local>, k: nat)
      requires e.InfixE? && ModelledE(e, decls)
      ensures ConstsE(e) == ConstsE(e.left) + ConstsE(e.right)
      ensures CodeE(e, decls, k)
           == CodeE(e.left, decls, k) + CodeE(e.right, decls, k + |ConstsE(e.left)|) + [InfixOpcode(Emitted(e.op))]
              + (if IsCompound(e.op) then WriteBack(e.left, decls) else [])
      ensures AcceptsE(e, decls)
         <==> AcceptsE(e.left, decls) && AcceptsE(e.right, decls) && (IsCompound(e.op) ==> AcceptsStore(e.left, decls))
      ensures !IsLogical(e.op) && ModelledE(e.left, decls) && ModelledE(e.right, decls)
    {
    }

    method CompileInfix(e: Expr)
      requires e.InfixE? && (errors == [] ==> ModelledE(e, Decls(locals)))
      modifies `code, `constants, `errors
      ensures old(code) <= code && old(errors) <= errors
      ensures old(errors) == [] ==> (errors == [] <==> AcceptsE(e, Decls(locals)))
      ensures errors == [] ==> code == old(code) + CodeE(e, Decls(locals), |old(constants)|)
      ensures errors == [] ==> constants == old(constants) + ConstsE(e)
      decreases e, 0, 1
    {
      hide CodeE, ConstsE, AcceptsE, WriteBack, InfixOpcode, Decls, ModelledE;
      if errors == [] {
        InfixParts(e, Decls(locals), |constants|);
      }
      if IsLogical(e.op) {
        CompileLogical(e);
        return;
      }
      ghost var l, r := CodeE(e.left, Decls(locals), |constants|), CodeE(e.right, Decls(locals), |constants| + |ConstsE(e.left)|);
      CompileExpr(e.left);
      CompileExpr(e.right);
      Assoc(old(code), l, r);
      Assoc(old(constants), ConstsE(e.left), ConstsE(e.right));
      code := code + [InfixOpcode(Emitted(e.op))];
      Assoc(old(code), l + r, [InfixOpcode(Emitted(e.op))]);
      if IsCompound(e.op) {
        Assoc(old(code), l + r + [InfixOpcode(Emitted(e.op))], WriteBack(e.left, Decls(locals)));
        StoreBack(e.left);
      } else {
        assert l + r + [InfixOpcode(Emitted(e.op))] + [] == l + r + [InfixOpcode(Emitted(e.op))];
      }
    }

    /** `and` and `or`: a jump over the right operand, patched once its end is known. The
        modelled part of the language leaves these operators out, because the machine does
        not run this code as meant; what is emitted is proved all the same. */
    method CompileLogical(e: Expr)
      requires e.InfixE? && IsLogical(e.op)
      requires errors == [] ==> ModelledE(e.left, Decls(locals)) && ModelledE(e.right, Decls(locals))
      modifies `code, `constants, `errors
      ensures old(code) <= code && old(errors) <= errors
      ensures errors == [] ==> code == old(code) + CodeE(e, Decls(locals), |old(constants)|)
      ensures errors == [] ==> constants == old(constants) + ConstsE(e)
      decreases e, 0, 0
    {
      hide CodeE, ConstsE, AcceptsE, ModelledE, PatchOne, Decls, EncodeInt;
      var op := if e.op.LogicalAnd? then OP_CONDITIONAL_JUMP_LEAVE else OP_CONDITIONAL_TRUTHY_JUMP_LEAVE;
      LogicalParts(e, Decls(locals), |constants|, op);
      JumpLength(op, 0);
      CompileExpr(e.left);
      ghost var left := code;
      var jump := EmitJump(op);
      CompileExpr(e.right);
      ghost var right := code[|left| + 4..];
      assert code == left + JumpBytes(op, 0) + right;
      PatchJump(jump, |code|);
      PatchJumpBytes(left, op, |right|, right);
      if errors == [] {
        ghost var l := CodeE(e.left, Decls(locals), |old(constants)|);
        assert left == old(code) + l;
        assert right == CodeE(e.right, Decls(locals), |old(constants)| + |ConstsE(e.left)|);
        Assoc(old(code), l, JumpBytes(op, |right|));
        Assoc(old(code), l + JumpBytes(op, |right|), right);
      }
    }

    /** The parts of a logical expression. */
    static lemma LogicalParts(e: Expr, decls: seq<Local>, k: nat, op: Byte)
      requires e.InfixE? && IsLogical(e.op)
      requires op == if e.op.LogicalAnd? then OP_CONDITIONAL_JUMP_LEAVE else OP_CONDITIONAL_TRUTHY_JUMP_LEAVE
      ensures ConstsE(e) == ConstsE(e.left) + ConstsE(e.right)
      ensures var r := CodeE(e.right, decls, k + |ConstsE(e.left)|);
              CodeE(e, decls, k) == CodeE(e.left, decls, k) + JumpBytes(op, |r|) + r
    {
    }

    method CompileAssign(e: Expr)
      requires e.Assign? && (errors == [] ==> ModelledE(e, Decls(locals)))
      modifies `code, `constants, `errors
      ensures old(code) <= code && old(errors) <= errors
      ensures old(errors) == [] ==> (errors == [] <==> AcceptsE(e, Decls(locals)))
      ensures errors == [] ==> code == old(code) + CodeE(e, Decls(locals), |old(constants)|)
      ensures errors == [] ==> constants == old(constants) + ConstsE(e)
      decreases e, 0
    {
      if e.target.Ident? {
        CompileExpr(e.value);
        NamedVariable(e.target.name, Put);
      } else {
        errors := errors + [IllegalLvalue];
      }
    }

    method CompileCall(e: Expr)
      requires e.Call? && (errors == [] ==> ModelledE(e, Decls(locals)))
      modifies `code, `constants, `errors
      ensures old(code) <= code && old(errors) <= errors
      ensures old(errors) == [] ==> (errors == [] <==> AcceptsE(e, Decls(locals)))
      ensures errors == [] ==> code == old(code) + CodeE(e, Decls(locals), |old(constants)|)
      ensures errors == [] ==> constants == old(constants) + ConstsE(e)
      decreases e, 0
    {
      hide ConstBytes, CodeArgs, AcceptsArgs, ConstsArgs, ModelledArgs;
      CompileExpr(e.callee);
      var argc := CompileArguments(e.args);
      code := code + [OP_CALL];
      code := code + [argc];
    }

    method CompileArguments(args: List<Expr>) returns (argc: Byte)
      requires errors == [] ==> ModelledArgs(args, Decls(locals))
      modifies `code, `constants, `errors
      ensures old(code) <= code && old(errors) <= errors
      ensures old(errors) == [] ==> (errors == [] <==> Length(args) <= 255 && AcceptsArgs(args, Decls(locals)))
      ensures errors == [] ==> argc == Length(args)
      ensures errors == [] ==> code == old(code) + CodeArgs(args, Decls(locals), |old(constants)|)
      ensures errors == [] ==> constants == old(constants) + ConstsArgs(args)
      decreases args, 0
    {
      hide CodeE, ConstsE, AcceptsE, ModelledE, Decls;
      if Length(args) > 255 {
        errors := errors + [ArgumentsCountExceedsLimit];
        return 0;
      }
      var rest := args;
      while rest.Cons?
        invariant rest == args || rest < args
        invariant errors == [] ==> ModelledArgs(rest, Decls(locals))
        invariant old(code) <= code && old(errors) <= errors
        invariant old(errors) == [] ==> (AcceptsArgs(args, Decls(locals)) <==> errors == [] && AcceptsArgs(rest, Decls(locals)))
        invariant errors == [] ==>
                    code + CodeArgs(rest, Decls(locals), |constants|) == old(code) + CodeArgs(args, Decls(locals), |old(constants)|)
        invariant errors == [] ==> constants + ConstsArgs(rest) == old(constants) + ConstsArgs(args)
        decreases rest
      {
        CompileExpr(rest.head);
        rest := rest.tail;
      }
      argc := Length(args);
    }

    // ----- statements -----

    method CompileStmt(s: Stmt, ghost own: bool)
      requires Sound(Now(), own) && WellPlaced(s, own, loops != []) && (errors == [] ==> ModelledS(s, Decls(locals)))
      modifies this
      ensures Kept(old(Now()), Now(), own) && AddsStmt(s, old(Now()), Now(), own)
      ensures outer == old(outer) && name == old(name) && (IsStatement(s) ==> locals == old(locals))
      decreases s, 2
    {
      hide Kept, AddsStmt, Table, Decls;
      match s
      case Empty => EmptyAdds(Now(), own);
      case ExprStmt(_) => CompileDrop(s, OP_POP, own);
      case Print(_) => CompileDrop(s, OP_PRINT, own);
      case Let(_, _, _) => CompileLet(s, own);
      case Fun(_) => CompileFunction(s, own);
      case Block(_) => CompileBlock(s, own);
      case If(_, _, _) => CompileIf(s, own);
      case While(_, _) => CompileWhile(s, own);
      case For(_, _, _, _) => CompileFor(s, own);
      case Break => CompileControlFlow(s, own);
      case Continue => CompileControlFlow(s, own);
      case Return(_) => CompileReturn(s, own);
    }

    /** An expression statement or a print statement. */
    method CompileDrop(s: Stmt, op: Byte, ghost own: bool)
      requires (s.ExprStmt? && op == OP_POP) || (s.Print? && op == OP_PRINT)
      requires Sound(Now(), own) && (errors == [] ==> ModelledS(s, Decls(locals)))
      modifies this
      ensures Kept(old(Now()), Now(), own) && AddsStmt(s, old(Now()), Now(), own)
      ensures outer == old(outer) && name == old(name) && locals == old(locals)
      decreases s, 0
    {
      hide Kept, AddsStmt, Table, Decls, AcceptsE, CodeE, ConstsE;
      ghost var a := Now();
      CompileExpr(s.e);
      ghost var b := Now();
      code := code + [op];
      DropAdds(s, a, b, op, own);
    }

    method CompileLet(s: Stmt, ghost own: bool)
      requires s.Let? && Sound(Now(), own) && (errors == [] ==> ModelledS(s, Decls(locals)))
      modifies this
      ensures Kept(old(Now()), Now(), own) && AddsStmt(s, old(Now()), Now(), own)
      ensures outer == old(outer) && name == old(name)
      decreases s, 0
    {
      hide Kept, AddsStmt, Table, Decls, AcceptsE, CodeE, ConstsE, AcceptsDeclaration, Below;
      ghost var a := Now();
      if s.init == Ident(s.name) {
        errors := errors + [VariableInOwnInitializer];
        SelfInitAdds(s, a, Now(), own);
        return;
      }
      CompileExpr(s.init);
      ghost var b := Now();
      DeclareVariable(Local(s.name, s.mut));
      LetAdds(s, a, b, Now(), own);
    }

    method CompileReturn(s: Stmt, ghost own: bool)
      requires s.Return? && Sound(Now(), own) && (errors == [] ==> ModelledS(s, Decls(locals)))
      modifies this
      ensures Kept(old(Now()), Now(), own) && AddsStmt(s, old(Now()), Now(), own)
      ensures outer == old(outer) && name == old(name) && locals == old(locals)
      decreases s, 0
    {
      hide Kept, AddsStmt, Table, Decls, AcceptsE, CodeE, ConstsE;
      ghost var a := Now();
      if s.result.None? {
        EmitReturn();
        assert [OP_NULL, OP_RETURN] == [OP_NULL] + [OP_RETURN];
        Assoc(a.code, [OP_NULL], [OP_RETURN]);
        ReturnAdds(s, a, Emit(a, [OP_NULL]), own);
      } else {
        CompileExpr(s.result.value);
        ghost var b := Now();
        code := code + [OP_RETURN];
        ReturnAdds(s, a, b, own);
      }
    }

    /** break and continue. Where to is not known yet. */
    method CompileControlFlow(s: Stmt, ghost own: bool)
      requires (s.Break? || s.Continue?) && Sound(Now(), own) && WellPlaced(s, own, loops != [])
      modifies this
      ensures Kept(old(Now()), Now(), own) && AddsStmt(s, old(Now()), Now(), own)
      ensures outer == old(outer) && name == old(name) && locals == old(locals)
      decreases s, 0
    {
      hide Kept, AddsStmt, Decls, Pops, Table, Below, JumpBytes, Adds, StmtPart, LeaveCode;
      ghost var a := Now();
      if loops == [] {
        errors := errors + [ControlFlowOutsideLoop];
        StrayAdds(s, a, Now());
      } else {
        LeaveLoop(s.Break?);
        LeaveAdds(s, a, Now(), a.loops[|a.loops| - 1]);
      }
    }

    /** Pop what was declared inside the loop, then jump, and record the jump. */
    method LeaveLoop(brk: bool)
      requires loops != [] && Table(locals, scopeDepth)
      modifies `code, `loops
      ensures var n := |old(loops)| - 1;
              var l := old(loops)[n];
              var op := if brk || l.continueForward then OP_JUMP else OP_LOOP;
              && code == old(code) + LeaveCode(old(Now()), op) && |LeaveCode(old(Now()), op)| >= 3
              && loops == old(loops)[n := if brk then l.(breaks := l.breaks + [|code| - 3]) else l.(continues := l.continues + [|code| - 3])]
    {
      hide Decls, Pops, Table, Below, JumpBytes;
      ghost var before := code;
      var l := loops[|loops| - 1];
      LeaveLocals(l.scopeDepth);
      ghost var pops := Pops(|locals| - Below(locals, l.scopeDepth + 1));
      var op := if brk || l.continueForward then OP_JUMP else OP_LOOP;
      JumpLength(op, 0);
      Assoc(before, pops, JumpBytes(op, 0));
      var jump := EmitJump(op);
      loops := loops[|loops| - 1 := if brk then l.(breaks := l.breaks + [jump]) else l.(continues := l.continues + [jump])];
    }

    /** Pop the locals above a loop's scope, if there are any. */
    method LeaveLocals(depth: nat)
      requires Table(locals, scopeDepth)
      modifies `code
      ensures code == old(code) + Pops(|locals| - Below(locals, depth + 1))
    {
      hide Table, Below, Pops;
      if scopeDepth > depth {
        PopLocals(depth);
      } else {
        NothingInside(locals, scopeDepth, depth);
      }
    }

    method CompileBlock(s: Stmt, ghost own: bool)
      requires s.Block? && Sound(Now(), own) && WellPlaced(s, own, loops != []) && (errors == [] ==> ModelledS(s, Decls(locals)))
      modifies this
      ensures Kept(old(Now()), Now(), own) && AddsStmt(s, old(Now()), Now(), own)
      ensures outer == old(outer) && name == old(name) && locals == old(locals)
      decreases s, 0
    {
      hide AddsStmt, AddsList, Decls, Kept, Below, Pops, Closed, Table, CodeS, ConstsS, ScopeOf, AfterList,
           ModelledFun;
      ghost var a := Now();
      NestedScope(locals, scopeDepth);
      scopeDepth := scopeDepth + 1;
      CompileList(s.body, own);
      ghost var b := Now();
      BlockLocals(a, b, own);
      EndScope();
      assert locals == a.locals;
      ClosedIs(a, b);
      BlockAdds(s, a, b, own);
    }

    method CompileList(ss: List<Stmt>, ghost own: bool)
      requires Sound(Now(), own) && WellPlacedList(ss, own, loops != []) && (errors == [] ==> ModelledList(ss, Decls(locals)))
      requires own ==> loops[|loops| - 1].scopeDepth < scopeDepth
      modifies this
      ensures Kept(old(Now()), Now(), own) && AddsList(ss, old(Now()), Now(), own)
      ensures outer == old(outer) && name == old(name)
      decreases ss, 0
    {
      hide Table, Decls, AddsStmt, AddsList;
      ghost var a := Now();
      if ss.Cons? {
        CompileStmt(ss.head, own);
        ghost var b := Now();
        StmtScope(ss.head, a, b, own);
        CompileList(ss.tail, own);
        ListAdds(ss, a, b, Now(), own);
      } else {
        NoneAdds(a, own);
      }
    }

    method CompileIf(s: Stmt, ghost own: bool)
      requires s.If? && Sound(Now(), own) && WellPlaced(s, own, loops != []) && (errors == [] ==> ModelledS(s, Decls(locals)))
      modifies this
      ensures Kept(old(Now()), Now(), own) && AddsStmt(s, old(Now()), Now(), own)
      ensures outer == old(outer) && name == old(name) && locals == old(locals)
      decreases s, 1
    {
      hide AddsStmt, AddsExpr, Decls, Table, AcceptsE, CodeE, ConstsE, PatchOne, Kept, Adds, JumpBytes, AcceptsS, CodeS, ConstsS,
           Resolve, Below, ModelledS, ModelledE;
      ghost var a := Now();
      IfModelled(s, Decls(locals));
      ghost var b, d;
      var elseJump;
      elseJump, b, d := CompileThen(s, own);
      ghost var f := Now();
      if s.els.Some? {
        CompileStmt(s.els.value, own);
      }
      ghost var g := Now();
      KeptGrows(f, g, own, s);
      PatchJump(elseJump, |code|);
      IfAdds(s, a, b, d, g, own);
    }

    static lemma IfModelled(s: Stmt, decls: seq<Local>)
      requires s.If?
      ensures ModelledS(s, decls) && s.els.Some? ==> ModelledS(s.els.value, decls)
    {
      hide ModelledE;
    }

    /** Condition, exit jump, then-branch and the jump over the else-branch. */
    method CompileThen(s: Stmt, ghost own: bool) returns (elseJump: nat, ghost b: Stage, ghost d: Stage)
      requires s.If? && Sound(Now(), own) && WellPlaced(s, own, loops != []) && (errors == [] ==> ModelledS(s, Decls(locals)))
      modifies this
      ensures AddsExpr(s.cond, old(Now()), b)
      ensures var c := Emit(b, JumpBytes(OP_CONDITIONAL_JUMP, 0)); Kept(c, d, own) && AddsStmt(s.thn, c, d, own)
      ensures d.locals == old(locals) && elseJump == |d.code| + 1 && elseJump + 3 == |code|
      ensures Sound(Now(), own) && |loops| == |old(loops)| && locals == old(locals) && old(errors) <= errors
      ensures Now() == Patched(Emit(d, JumpBytes(OP_JUMP, 0)), |b.code| + 1)
      ensures outer == old(outer) && name == old(name)
      decreases s, 0
    {
      hide AddsStmt, Decls, Table, AcceptsE, CodeE, ConstsE, PatchOne, Kept, Adds, JumpBytes, AcceptsS, CodeS, ConstsS, Resolve, Below;
      CompileExpr(s.cond);
      b := Now();
      JumpLength(OP_CONDITIONAL_JUMP, 0);
      JumpLength(OP_JUMP, 0);
      var ifJump := EmitJump(OP_CONDITIONAL_JUMP);
      CompileStmt(s.thn, own);
      d := Now();
      elseJump := EmitJump(OP_JUMP);
      KeptShape(Emit(b, JumpBytes(OP_CONDITIONAL_JUMP, 0)), d, own);
      PatchJump(ifJump, |code|);
    }

    /** The end of a loop, behind its back jump: the exit jump, the breaks and the continues
        get their targets, and the loop leaves the stack. */
    method EndLoop(exitJump: Option<nat>)
      requires loops != [] && Patchable(loops[|loops| - 1].(breakTarget := |code|), |code|)
      requires exitJump.Some? ==> exitJump.value + 3 <= |code|
      modifies `code, `errors, `loops
      ensures var n := |old(loops)| - 1;
              var l := old(loops)[n];
              var g := if exitJump.Some? then Patched(old(Now()), exitJump.value) else old(Now());
              && loops == old(loops)[..n]
              && BodyPatched(g, Now(), l.breaks, l.continues, Targets(|old(code)|, l.continueTarget), l.continueForward)
    {
      hide PatchOne, PatchAll, Dist;
      var n := |loops| - 1;
      loops := loops[n := loops[n].(breakTarget := |code|)];
      if exitJump.Some? {
        PatchJump(exitJump.value, |code|);
      }
      PatchLoopContext();
      loops := loops[..n];
    }

    /** What while and for have in common: body, increment, back jump, patches. The loop is
        on the stack and its guard, if any, is written. `a` is the stage before the loop and
        `p` the one with the loop on the stack, in the scope of its body. */
    method CompileRound(s: Stmt, loopStart: nat, exitJump: Option<nat>, ghost a: Stage, ghost p: Stage, ghost own: bool)
      requires (s.While? || s.For?) && Sound(a, own) && IsStatement(s.loop) && WellPlaced(s.loop, true, true)
      requires loopStart == |a.code| && a.depth <= p.depth <= a.depth + 1
      requires p == a.(loops := a.loops + [LoopRecord(a.depth, 0, 0, StepOf(s).Some?, [], [])], depth := p.depth)
      requires GuardDone(s, p, Now()) && exitJump.Some? == GuardOf(s).Some? && (exitJump.Some? ==> exitJump.value + 3 == |code|)
      requires Sound(Now(), true) && loops == p.loops && locals == p.locals && scopeDepth == p.depth
      requires errors == [] ==>
                 ModelledS(s.loop, Decls(locals)) && (StepOf(s).Some? ==> ModelledE(StepOf(s).value, Decls(locals)))
      modifies this
      ensures Kept(a, Now().(depth := a.depth), own)
      ensures Adds(a, Now().(depth := a.depth), own, LoopPart(s, ScopeAt(p), |a.constants|, |a.code|))
      ensures outer == old(outer) && name == old(name) && locals == old(locals) && scopeDepth == old(scopeDepth)
      decreases s, 0, 0
    {
      hide StmtPart, Decls, AcceptsE, CodeE, ConstsE, PatchOne, Kept, Adds, JumpBytes, Table, Below, GuardDone,
           StepDone, LoopEntered, LoopStages, LoopPart, PatchAll, InReach, Pending, Resolve, ScopeOf, LoopLayout,
           AddsStmt, EncodeInt;
      ghost var c := Now();
      ghost var d, e := CompileLoopBody(s, loopStart);
      StagesAre(s, a, p.loops[|p.loops| - 1], p.depth, c, d, e);
      LoopHoles(s, a, p, c, d, e);
      EmitLoop(loopStart);
      EndLoop(exitJump);
      LoopAdds(s, a, p, c, d, e, Now().(depth := a.depth), own);
    }

    /** The body, followed by the increment; continue leads to the increment or, without one,
        back to the start. */
    method CompileLoopBody(s: Stmt, loopStart: nat) returns (ghost d: Stage, ghost e: Stage)
      requires (s.While? || s.For?) && IsStatement(s.loop) && WellPlaced(s.loop, true, true)
      requires Sound(Now(), true) && loops != []
      requires errors == [] ==>
                 ModelledS(s.loop, Decls(locals)) && (StepOf(s).Some? ==> ModelledE(StepOf(s).value, Decls(locals)))
      modifies this
      ensures Kept(old(Now()), d, true) && AddsStmt(s.loop, old(Now()), d, true) && StepDone(s, d, e)
      ensures |d.loops| == |old(loops)| && e.loops == d.loops && Now() == e.(loops := loops)
      ensures var n := |d.loops| - 1;
              loops == d.loops[n := d.loops[n].(continueTarget := if StepOf(s).Some? then |d.code| else loopStart)]
      ensures outer == old(outer) && name == old(name) && d.locals == old(locals) && locals == old(locals) && scopeDepth == old(scopeDepth)
      decreases s.loop, 3
    {
      hide StmtPart, Decls, AcceptsE, CodeE, ConstsE, Kept, Adds, Table, Below, StepDone, AddsStmt, ModelledE;
      var n := |loops| - 1;
      ghost var c := Now();
      CompileStmt(s.loop, true);
      d := Now();
      KeptShape(c, d, true);
      loops := loops[n := loops[n].(continueTarget := loopStart)];
      ghost var before := Now();
      CompileIncrement(s);
      e := Now().(loops := d.loops);
      StepElsewhere(s, before, Now().(loops := before.loops), d, e);
    }

    /** The increment of a loop, if it has one: continue leads there, and its value is dropped. */
    method CompileIncrement(s: Stmt)
      requires (s.While? || s.For?) && loops != []
      requires errors == [] && StepOf(s).Some? ==> ModelledE(StepOf(s).value, Decls(locals))
      modifies `code, `constants, `errors, `loops
      ensures StepDone(s, old(Now()), Now().(loops := old(loops)))
      ensures var n := |old(loops)| - 1;
              loops == if StepOf(s).Some? then old(loops)[n := old(loops)[n].(continueTarget := |old(code)|)] else old(loops)
      decreases s, 0, 0
    {
      hide StepDone, CodeE, AcceptsE, ConstsE, Decls;
      ghost var d := Now();
      if StepOf(s).None? {
        NoStep(s, d);
        return;
      }
      var n := |loops| - 1;
      loops := loops[n := loops[n].(continueTarget := |code|)];
      ghost var before := Now();
      CompileExpr(StepOf(s).value);
      ExprElsewhere(StepOf(s).value, before, Now(), d, Now().(loops := d.loops));
      StepIs(s, d, Now().(loops := d.loops));
      code := code + [OP_POP];
    }

    /** The guard of a loop, if it has one, and the jump that leaves when it fails. */
    method CompileGuard(s: Stmt) returns (exitJump: Option<nat>)
      requires (s.While? || s.For?) && (errors == [] && GuardOf(s).Some? ==> ModelledE(GuardOf(s).value, Decls(locals)))
      modifies `code, `constants, `errors
      ensures GuardDone(s, old(Now()), Now()) && exitJump.Some? == GuardOf(s).Some?
      ensures exitJump.Some? ==> exitJump.value + 3 == |code|
      decreases s, 0, 0
    {
      hide GuardDone, JumpBytes, CodeE, AcceptsE, ConstsE, Decls;
      ghost var p := Now();
      if GuardOf(s).None? {
        NoGuard(s, p);
        return None;
      }
      CompileExpr(GuardOf(s).value);
      GuardIs(s, p, Now());
      JumpLength(OP_CONDITIONAL_JUMP, 0);
      var jump := EmitJump(OP_CONDITIONAL_JUMP);
      exitJump := Some(jump);
    }

    method CompileWhile(s: Stmt, ghost own: bool)
      requires s.While? && Sound(Now(), own) && WellPlaced(s, own, loops != []) && (errors == [] ==> ModelledS(s, Decls(locals)))
      modifies this
      ensures Kept(old(Now()), Now(), own) && AddsStmt(s, old(Now()), Now(), own)
      ensures outer == old(outer) && name == old(name) && locals == old(locals)
      decreases s, 0, 1
    {
      hide StmtPart, Decls, AcceptsE, CodeE, ConstsE, Kept, Adds, JumpBytes, Table, Below, GuardDone, LoopEntered, LoopPart;
      ghost var a := Now();
      var loopStart := |code|;
      loops := loops + [LoopRecord(scopeDepth, 0, 0, false, [], [])];
      ghost var p := Now();
      var exitJump := CompileGuard(s);
      GuardShape(s, p, Now());
      CompileRound(s, loopStart, exitJump, a, p, own);
      WhilePart(s, ScopeAt(a), |a.constants|, |a.code|, ContextAt(a, own));
    }

    method CompileFor(s: Stmt, ghost own: bool)
      requires s.For? && Sound(Now(), own) && WellPlaced(s, own, loops != []) && (errors == [] ==> ModelledS(s, Decls(locals)))
      modifies this
      ensures Kept(old(Now()), Now(), own) && AddsStmt(s, old(Now()), Now(), own)
      ensures outer == old(outer) && name == old(name) && locals == old(locals)
      decreases s, 0, 2
    {
      hide AddsStmt, Decls, Kept, Adds, Table, Below, LoopPart, Pops, Closed, ScopeOf, IsLogical, IsCompound,
           ModelledList, Nested, IsIdentifier, ModelledFun, ConstsS, SlotOf, JumpBytes, EntryScope, BodyContext,
           After, Resolve, ModelledArgs, AfterInit, Within, LoopLayout, CodeS, LoopsGrown, ResolveBelow;
      ghost var a := Now();
      NestedScope(locals, scopeDepth);
      scopeDepth := scopeDepth + 1;
      ghost var a1 := Now();
      CompileInit(s, own);
      ghost var b := Now();
      KeptShape(a1, b, own);
      CompileForLoop(s, own);
      ghost var y := Now();
      KeptThen(a1, b, y, own);
      BlockLocals(a, y, own);
      EndScope();
      ClosedIs(a, y);
      ForAdds(s, a, b, y, own);
    }

    method CompileInit(s: Stmt, ghost own: bool)
      requires s.For? && Sound(Now(), own) && WellPlaced(s, own, loops != []) && (errors == [] ==> ModelledS(s, Decls(locals)))
      modifies this
      ensures Kept(old(Now()), Now(), own)
      ensures if s.ini.Some? then AddsStmt(s.ini.value, old(Now()), Now(), own) else Now() == old(Now())
      ensures outer == old(outer) && name == old(name) && (errors == [] ==> Decls(locals) == AfterInit(s.ini, old(Decls(locals))))
      ensures errors == [] ==> old(errors) == []
      decreases s, 0, 0
    {
      hide AddsStmt, Decls, Kept, Table, Below;
      ghost var a := Now();
      EmptyAdds(a, own);
      if s.ini.Some? {
        CompileStmt(s.ini.value, own);
        StmtScope(s.ini.value, a, Now(), own);
      }
    }

    /** A for statement behind its initializer. */
    method CompileForLoop(s: Stmt, ghost own: bool)
      requires s.For? && Sound(Now(), own) && IsStatement(s.loop) && WellPlaced(s.loop, true, true)
      requires errors == [] ==>
                 && (s.test.Some? ==> ModelledE(s.test.value, Decls(locals)))
                 && (s.step.Some? ==> ModelledE(s.step.value, Decls(locals)))
                 && ModelledS(s.loop, Decls(locals))
      modifies this
      ensures Kept(old(Now()), Now(), own)
      ensures Adds(old(Now()), Now(), own, LoopPart(s, old(ScopeOf(locals, scopeDepth + 1)), |old(constants)|, |old(code)|))
      ensures outer == old(outer) && name == old(name) && locals == old(locals)
      decreases s, 0, 1
    {
      hide StmtPart, Decls, AcceptsE, CodeE, ConstsE, Kept, Adds, JumpBytes, Table, Below, LoopPart, GuardDone,
           ScopeOf, IsLogical, Digit, EncodeInt, ResolveBelow, IsStatement, ConstsS, CodeS, SlotOf, Forward,
           ModelledArgs, LeavePops;
      ghost var b := Now();
      var loopStart, n := |code|, |loops|;
      loops := loops + [LoopRecord(scopeDepth, 0, 0, false, [], [])];
      ghost var before := Now();
      var exitJump := CompileGuard(s);
      GuardShape(s, before, Now());
      ghost var after := Now();
      if s.step.Some? {
        loops := loops[n := loops[n].(continueForward := true)];
      }
      NestedScope(locals, scopeDepth);
      scopeDepth := scopeDepth + 1;
      ghost var p := before.(loops := loops, depth := scopeDepth);
      GuardElsewhere(s, before, after, p, Now());
      CompileRound(s, loopStart, exitJump, b, p, own);
      NothingInside(locals, b.depth, b.depth);
      EndScope();
    }

    // ----- functions -----

    method CompileFunction(s: Stmt, ghost own: bool)
      requires s.Fun? && Sound(Now(), own) && WellPlaced(s, own, loops != []) && (errors == [] ==> ModelledS(s, Decls(locals)))
      modifies this
      ensures Kept(old(Now()), Now(), own) && AddsStmt(s, old(Now()), Now(), own)
      ensures outer == old(outer) && name == old(name)
      decreases s, 0
    {
      hide AddsStmt, Decls, Kept, Table, Closure, AcceptsDeclaration, Below;
      ghost var a := Now();
      DeclareVariable(Local(s.decl.name, s.decl.mut));
      ghost var b := Now();
      var fn := DoCompileFunction(s.decl);
      FunctionAdds(s, a, b, Now(), fn, own);
    }

    /** Start a function: its own code, constants and locals, slot 0 being the function. */
    method PushFunctionContext(n: Name)
      modifies `outer, `name, `code, `constants, `locals
      ensures outer == old(outer) + [FunctionContext(old(name), old(code), old(constants), old(locals))]
      ensures name == n && code == [] && constants == [] && locals == [Slot(Local("", false), 0)]
    {
      outer := outer + [FunctionContext(name, code, constants, locals)];
      name, code, constants, locals := n, [], [], [Slot(Local("", false), 0)];
    }

    /** And go back to the one around it. */
    method PopFunctionContext()
      requires outer != []
      modifies `outer, `name, `code, `constants, `locals
      ensures var n := |old(outer)| - 1;
              outer == old(outer)[..n] && FunctionContext(name, code, constants, locals) == old(outer)[n]
    {
      var context := outer[|outer| - 1];
      outer := outer[..|outer| - 1];
      name, code, constants, locals := context.name, context.code, context.constants, context.locals;
    }

    /** Compile a function in a context of its own, then load it as a closure. */
    method DoCompileFunction(decl: FunDecl) returns (fn: FunctionObject)
      requires Table(locals, scopeDepth) && IsStatement(decl.body) && WellPlaced(decl.body, false, loops != [])
      requires errors == [] ==> ModelledFun(decl)
      modifies this
      ensures Closure(decl, old(Now()), Now(), fn)
      ensures outer == old(outer) && name == old(name)
      decreases decl, 1
    {
      hide AcceptsFun, CompileFun, Table, Below, ConstBytes, ModelledS, AcceptsS, CodeS, Pops;
      ghost var b := Now();
      PushFunctionContext(decl.name);
      scopeDepth := scopeDepth + 1;
      CompileBody(decl);
      fn := FunctionObject(name, |decl.params|, code, constants);
      PopFunctionContext();
      code := code + [OP_CLOSURE];
      WriteConstant(FunV(fn.name, fn));
      ghost var z := Now();
      NothingInside(locals, b.depth, b.depth);
      EndScope();
      assert code == z.code + [] && locals == b.locals;
    }

    /** Parameters, body and the return at its end, in a fresh context. */
    method CompileBody(decl: FunDecl)
      requires scopeDepth >= 1 && locals == [Slot(Local("", false), 0)] && code == [] && constants == [] && name == decl.name
      requires IsStatement(decl.body) && WellPlaced(decl.body, false, loops != []) && (errors == [] ==> ModelledFun(decl))
      modifies this
      ensures old(errors) <= errors && loops == old(loops) && outer == old(outer) && scopeDepth == old(scopeDepth) && name == old(name)
      ensures old(errors) == [] ==> (errors == [] <==> AcceptsFun(decl))
      ensures errors == [] ==> FunctionObject(decl.name, |decl.params|, code, constants) == CompileFun(decl)
      decreases decl, 0
    {
      hide CompileFun, Kept, AddsStmt, AcceptsS, Table, Below, ModelledS;
      DeclareParams(decl);
      ghost var f := Now();
      CompileStmt(decl.body, false);
      ghost var g := Now();
      KeptShape(f, g, false);
      BodyAdds(decl, f, g);
      EmitReturn();
    }

    /** The parameters are declared one after the other. */
    method DeclareParams(decl: FunDecl)
      requires scopeDepth >= 1 && locals == [Slot(Local("", false), 0)] && code == [] && constants == []
      requires errors == [] ==> ModelledFun(decl)
      modifies `locals, `errors
      ensures Entered(decl, Now()) && old(errors) <= errors
      ensures old(errors) == [] ==>
                (errors == [] <==> Distinct(decl.params, |decl.params|))
    {
      hide AcceptsDeclaration, Decls, EntryScope, ScopeOf, ModelledS, ModelledE, Below, ConstsOpt;
      for i := 0 to |decl.params|
        invariant Table(locals, scopeDepth) && old(errors) <= errors && |locals| <= i + 1
        invariant locals[0] == Slot(Local("", false), 0)
        invariant forall j :: 1 <= j < |locals| ==> locals[j].depth == scopeDepth
        invariant errors == [] ==>
                    |locals| == i + 1 && forall j :: 1 <= j <= i ==> locals[j].decl == Local(decl.params[j - 1].name, decl.params[j - 1].mut)
        invariant old(errors) == [] ==> (errors == [] <==> Distinct(decl.params, i))
      {
        if errors == [] {
          ParamAccepted(decl.params, locals, scopeDepth, i);
        }
        DeclareVariable(Local(decl.params[i].name, decl.params[i].mut));
      }
      if errors == [] {
        ParamDecls(decl.params, locals);
      }
    }

    // ----- programs -----

    /** Compile a whole program with a new compiler: the script function, or nothing if there
        was an error. */
    method CompileSource(program: List<Stmt>) returns (script: Option<FunctionObject>)
      requires outer == [] && loops == [] && scopeDepth == 0 && errors == []
      requires name == "main" && code == [] && constants == [] && locals == [Slot(Local("this", false), 0)]
      requires ModelledProgram(program) && WellPlacedList(program, false, false)
      modifies this
      ensures script.Some? <==> AcceptsProgram(program)
      ensures script.Some? ==> script.value == CompileProgram(program)
    {
      hide CodeList, ConstsList, AcceptsList, AfterList, HolesList, Table, Below, Pops, LoopsExact, ModelledList,
           ModelledS, ConstsS, CompileFun, ConstBytes, CodeE, WellPlacedList, Decls, CodeIf, CodeLoop, Sound,
           ContextAt, ModelledE, WellPlaced, CodeS;
      scopeDepth := scopeDepth + 1;
      ghost var a := Now();
      ScriptStage(a);
      CompileList(program, false);
      ghost var b := Now();
      EmitReturn();
      ScriptEnd(a, b);
      EndScope();
      if errors == [] {
        return Some(FunctionObject(name, 0, code, constants));
      } else {
        return None;
      }
    }
  }
}
