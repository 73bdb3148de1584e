/** Integers as little-endian bytes, opcodes, and the decoding the machine performs. */
module Bytecode {
  import opened Values

  type Byte = b: nat | b < 256

  const UINT24_MAX: nat := 0xFF_FFFF

  /** Byte `i` of a number, counted from the least significant one. */
  function Digit(v: nat, i: nat): Byte
    decreases i
  {
    if i == 0 then v % 256 else Digit(v / 256, i - 1)
  }

  /** The low `n` bytes of `v`, least significant first. */
  function EncodeInt(v: nat, n: nat): seq<Byte> {
    seq(n, i requires 0 <= i < n => Digit(v, i))
  }

  function DecodeInt(bs: seq<Byte>): nat {
    if bs == [] then 0 else bs[0] + 256 * DecodeInt(bs[1..])
  }

  function Power256(n: nat): (p: nat)
    ensures p >= 1
  {
    if n == 0 then 1 else 256 * Power256(n - 1)
  }

  /** Decoding returns every number that fits the width it was encoded in. */
  lemma {:induction false} DecodeEncode(v: nat, n: nat)
    requires v < Power256(n)
    ensures DecodeInt(EncodeInt(v, n)) == v
  {
    if n > 0 {
      DecodeEncode(v / 256, n - 1);
      assert EncodeInt(v, n)[1..] == EncodeInt(v / 256, n - 1);
    }
  }

  /** Every byte string is the encoding of the number it decodes to. */
  lemma {:induction false} EncodeDecode(bs: seq<Byte>)
    ensures EncodeInt(DecodeInt(bs), |bs|) == bs
    ensures DecodeInt(bs) < Power256(|bs|)
  {
    if bs != [] {
      EncodeDecode(bs[1..]);
      EncodeFirst(bs[0], DecodeInt(bs[1..]), |bs| - 1);
    }
  }

  /** The first byte of an encoding, and the others. */
  lemma EncodeFirst(b: Byte, rest: nat, n: nat)
    ensures EncodeInt(b + 256 * rest, n + 1) == [b] + EncodeInt(rest, n)
  {
    assert (b + 256 * rest) % 256 == b && (b + 256 * rest) / 256 == rest;
    var whole, parts := EncodeInt(b + 256 * rest, n + 1), [b] + EncodeInt(rest, n);
    forall i | 0 <= i < |whole|
      ensures whole[i] == parts[i]
    {
    }
  }

  /** A number comes back exactly when it fits. */
  lemma FitsExactly(v: nat, n: nat)
    ensures DecodeInt(EncodeInt(v, n)) == v <==> v < Power256(n)
  {
    EncodeDecode(EncodeInt(v, n));
    if v < Power256(n) {
      DecodeEncode(v, n);
    }
  }

  /** The encoder as it is written: one byte of the shifted value per round. */
  method EncodeIntLoop(v: nat, n: nat) returns (bytes: seq<Byte>)
    ensures bytes == EncodeInt(v, n)
  {
    bytes := [];
    for i := 0 to n
      invariant bytes == EncodeInt(v, i)
    {
      bytes := bytes + [Digit(v, i)];
    }
  }

  lemma {:induction false} DecodeSnoc(bs: seq<Byte>, b: Byte)
    ensures DecodeInt(bs + [b]) == DecodeInt(bs) + Power256(|bs|) * b
  {
    if bs == [] {
      assert [b][1..] == [];
    } else {
      DecodeSnoc(bs[1..], b);
      assert (bs + [b])[1..] == bs[1..] + [b];
    }
  }

  /** The decoder as it is written: each round adds one byte shifted into its place. */
  method DecodeIntLoop(data: seq<Byte>, offset: nat, n: nat) returns (result: nat)
    requires offset + n <= |data|
    ensures result == DecodeInt(data[offset..offset + n])
  {
    result := 0;
    for i := 0 to n
      invariant result == DecodeInt(data[offset..offset + i])
    {
      DecodeSnoc(data[offset..offset + i], data[offset + i]);
      assert data[offset..offset + i + 1] == data[offset..offset + i] + [data[offset + i]];
      result := result + Power256(i) * data[offset + i];
    }
  }

  /** One machine instruction with its decoded operands. Jump operands are distances
      from the end of the instruction. */
  datatype Instr =
    | IPop | IPopN(count: nat)
    | IConst(index: nat)
    | ICondJump(dist: nat)
    | ICondJumpLeave(dist: nat) | ICondTruthyJumpLeave(dist: nat)
    | IJump(dist: nat) | ILoop(dist: nat)
    | ICall(argc: nat)
    | IClosure(index: nat)
    | ISave | IPushSaved
    | IPrefix(pre: PrefixOp) | IPostfix(post: PostfixOp) | IInfix(op: InfixOp)
    | INull | IBool(b: bool)
    | IPrint | IReturn
    | IGetLocal(slot: nat) | ISetLocal(slot: nat) | ISetIfLocal(slot: nat, test: nat)

  const OP_POP: Byte := 1
  const OP_POP_N: Byte := 2
  const OP_CONSTANT: Byte := 3
  const OP_CONSTANT_LONG: Byte := 4
  const OP_CONDITIONAL_JUMP: Byte := 5
  const OP_CONDITIONAL_JUMP_LEAVE: Byte := 7
  const OP_CONDITIONAL_TRUTHY_JUMP_LEAVE: Byte := 8
  const OP_JUMP: Byte := 9
  const OP_LOOP: Byte := 10
  const OP_CALL: Byte := 11
  const OP_CLOSURE: Byte := 12
  const OP_SAVE_SLOT: Byte := 26
  const OP_PUSH_SAVED_SLOT: Byte := 27
  const OP_NULL: Byte := 63
  const OP_TRUE: Byte := 64
  const OP_FALSE: Byte := 65
  const OP_PRINT: Byte := 66
  const OP_RETURN: Byte := 67
  const OP_GET_LOCAL: Byte := 76
  const OP_GET_LOCAL_LONG: Byte := 77
  const OP_SET_LOCAL: Byte := 78
  const OP_SET_LOCAL_LONG: Byte := 79
  const OP_SET_IF_LOCAL: Byte := 80
  const OP_SET_IF_LOCAL_LONG: Byte := 81

  /** Address of the compare function that conditional stores embed in the code; only
      its being a non-null 64-bit word matters. */
  const IS_PRIMITIVE_ADDRESS: nat := 0x4000_0000

  function PrefixOpcode(op: PrefixOp): Byte {
    match op
    case Bang => 28
    case Plus => 29
    case Minus => 30
    case Tilde => 32
    case Increment => 33
    case Decrement => 34
  }

  function PostfixOpcode(op: PostfixOp): Byte {
    match op
    case PostIncrement => 35
    case PostDecrement => 36
  }

  /** Opcode of an infix operator the machine implements. The two logical operators have
      none: they are jumps. */
  function InfixOpcode(op: InfixOp): Byte
    requires !IsLogical(op)
  {
    match op
    case Add => 31
    case Sub => 37
    case Mul => 38
    case Div => 39
    case Modulo => 40
    case Xor => 41
    case BitOr => 42
    case BitAnd => 43
    case ShiftLeft => 44
    case ShiftRight => 45
    case Equal => 46
    case NotEqual => 47
    case Greater => 48
    case Less => 49
    case GreaterEqual => 50
    case LessEqual => 51
    case AddAssign => 52
    case SubAssign => 53
    case MulAssign => 54
    case DivAssign => 55
    case ModAssign => 56
    case AndAssign => 57
    case XorAssign => 58
    case OrAssign => 59
    case ShiftLeftAssign => 60
    case ShiftRightAssign => 61
    case As => 62
  }

  /** Operators by opcode; the inverse of the three tables above. */
  function OperatorOf(b: Byte): Option<Instr> {
    match b
    case 28 => Some(IPrefix(Bang))
    case 29 => Some(IPrefix(Plus))
    case 30 => Some(IPrefix(Minus))
    case 31 => Some(IInfix(Add))
    case 32 => Some(IPrefix(Tilde))
    case 33 => Some(IPrefix(Increment))
    case 34 => Some(IPrefix(Decrement))
    case 35 => Some(IPostfix(PostIncrement))
    case 36 => Some(IPostfix(PostDecrement))
    case 37 => Some(IInfix(Sub))
    case 38 => Some(IInfix(Mul))
    case 39 => Some(IInfix(Div))
    case 40 => Some(IInfix(Modulo))
    case 41 => Some(IInfix(Xor))
    case 42 => Some(IInfix(BitOr))
    case 43 => Some(IInfix(BitAnd))
    case 44 => Some(IInfix(ShiftLeft))
    case 45 => Some(IInfix(ShiftRight))
    case 46 => Some(IInfix(Equal))
    case 47 => Some(IInfix(NotEqual))
    case 48 => Some(IInfix(Greater))
    case 49 => Some(IInfix(Less))
    case 50 => Some(IInfix(GreaterEqual))
    case 51 => Some(IInfix(LessEqual))
    case 52 => Some(IInfix(AddAssign))
    case 53 => Some(IInfix(SubAssign))
    case 54 => Some(IInfix(MulAssign))
    case 55 => Some(IInfix(DivAssign))
    case 56 => Some(IInfix(ModAssign))
    case 57 => Some(IInfix(AndAssign))
    case 58 => Some(IInfix(XorAssign))
    case 59 => Some(IInfix(OrAssign))
    case 60 => Some(IInfix(ShiftLeftAssign))
    case 61 => Some(IInfix(ShiftRightAssign))
    case 62 => Some(IInfix(As))
    case _ => None
  }

  lemma OperatorTables()
    ensures forall op: PrefixOp :: OperatorOf(PrefixOpcode(op)) == Some(IPrefix(op))
    ensures forall op: PostfixOp :: OperatorOf(PostfixOpcode(op)) == Some(IPostfix(op))
    ensures forall op: InfixOp | !IsLogical(op) :: OperatorOf(InfixOpcode(op)) == Some(IInfix(op))
  {
  }

  /** An operand that is one byte when it fits and three bytes otherwise, under the short
      or the long opcode. */
  function Indexed(short: Byte, long: Byte, index: nat): seq<Byte> {
    if index <= 255 then [short, index] else [long] + EncodeInt(index, 3)
  }

  /** A constant load; past the last index a load can carry, nothing is written. */
  function ConstBytes(k: nat): seq<Byte> {
    if k <= UINT24_MAX then Indexed(OP_CONSTANT, OP_CONSTANT_LONG, k) else []
  }

  function GetBytes(slot: nat): seq<Byte> { Indexed(OP_GET_LOCAL, OP_GET_LOCAL_LONG, slot) }

  function SetBytes(slot: nat): seq<Byte> { Indexed(OP_SET_LOCAL, OP_SET_LOCAL_LONG, slot) }

  function SetIfBytes(slot: nat, test: nat): seq<Byte> {
    Indexed(OP_SET_IF_LOCAL, OP_SET_IF_LOCAL_LONG, slot) + EncodeInt(test, 8)
  }

  function JumpBytes(op: Byte, dist: nat): seq<Byte> { [op] + EncodeInt(dist, 3) }

  /** The bytes the compiler writes for an instruction. */
  function Encode(i: Instr): seq<Byte>
    requires i.IInfix? ==> !IsLogical(i.op)
    requires i.IPopN? ==> i.count <= 255
    requires i.ICall? ==> i.argc <= 255
  {
    match i
    case IPop => [OP_POP]
    case IPopN(n) => [OP_POP_N, n]
    case IConst(k) => ConstBytes(k)
    case ICondJump(d) => JumpBytes(OP_CONDITIONAL_JUMP, d)
    case ICondJumpLeave(d) => JumpBytes(OP_CONDITIONAL_JUMP_LEAVE, d)
    case ICondTruthyJumpLeave(d) => JumpBytes(OP_CONDITIONAL_TRUTHY_JUMP_LEAVE, d)
    case IJump(d) => JumpBytes(OP_JUMP, d)
    case ILoop(d) => JumpBytes(OP_LOOP, d)
    case ICall(n) => [OP_CALL, n]
    case IClosure(k) => [OP_CLOSURE] + ConstBytes(k)
    case ISave => [OP_SAVE_SLOT]
    case IPushSaved => [OP_PUSH_SAVED_SLOT]
    case IPrefix(op) => [PrefixOpcode(op)]
    case IPostfix(op) => [PostfixOpcode(op)]
    case IInfix(op) => [InfixOpcode(op)]
    case INull => [OP_NULL]
    case IBool(b) => [if b then OP_TRUE else OP_FALSE]
    case IPrint => [OP_PRINT]
    case IReturn => [OP_RETURN]
    case IGetLocal(k) => GetBytes(k)
    case ISetLocal(k) => SetBytes(k)
    case ISetIfLocal(k, test) => SetIfBytes(k, test)
  }

  /** A decoded instruction and the position after it. */
  datatype Decoded = Decoded(instr: Instr, next: nat) | Undecodable

  /** An operand read from the code and the position after it. */
  datatype Operand = Operand(v: nat, next: nat) | Missing

  function ReadOperand(code: seq<Byte>, ip: nat, width: nat): Operand {
    if ip + width <= |code| then Operand(DecodeInt(code[ip..ip + width]), ip + width) else Missing
  }

  /** Bytes of the operand that follows an opcode, for the opcodes that have exactly one. */
  function OperandWidth(op: Byte): nat {
    if op == OP_POP_N || op == OP_CONSTANT || op == OP_CALL || op == OP_GET_LOCAL || op == OP_SET_LOCAL then 1
    else if op == OP_CONSTANT_LONG || op == OP_GET_LOCAL_LONG || op == OP_SET_LOCAL_LONG
         || op == OP_CONDITIONAL_JUMP || op == OP_CONDITIONAL_JUMP_LEAVE
         || op == OP_CONDITIONAL_TRUTHY_JUMP_LEAVE || op == OP_JUMP || op == OP_LOOP then 3
    else 0
  }

  function WithOperand(op: Byte, v: nat): Instr
    requires OperandWidth(op) > 0
  {
    if op == OP_POP_N then IPopN(v)
    else if op == OP_CONSTANT || op == OP_CONSTANT_LONG then IConst(v)
    else if op == OP_CALL then ICall(v)
    else if op == OP_GET_LOCAL || op == OP_GET_LOCAL_LONG then IGetLocal(v)
    else if op == OP_SET_LOCAL || op == OP_SET_LOCAL_LONG then ISetLocal(v)
    else if op == OP_CONDITIONAL_JUMP then ICondJump(v)
    else if op == OP_CONDITIONAL_JUMP_LEAVE then ICondJumpLeave(v)
    else if op == OP_CONDITIONAL_TRUTHY_JUMP_LEAVE then ICondTruthyJumpLeave(v)
    else if op == OP_JUMP then IJump(v)
    else ILoop(v)
  }

  /** Opcodes without operands. */
  function Plain(op: Byte): Option<Instr> {
    if op == OP_POP then Some(IPop)
    else if op == OP_SAVE_SLOT then Some(ISave)
    else if op == OP_PUSH_SAVED_SLOT then Some(IPushSaved)
    else if op == OP_NULL then Some(INull)
    else if op == OP_TRUE then Some(IBool(true))
    else if op == OP_FALSE then Some(IBool(false))
    else if op == OP_PRINT then Some(IPrint)
    else if op == OP_RETURN then Some(IReturn)
    else OperatorOf(op)
  }

  /** What the machine reads at `ip`. The two conditional stores read a one-byte slot
      under either opcode: the handler compares the opcode with the long form of the
      unconditional store, which it never is. */
  function Decode(code: seq<Byte>, ip: nat): Decoded {
    if ip >= |code| then Undecodable else
    var op := code[ip];
    if OperandWidth(op) > 0 then
      match ReadOperand(code, ip + 1, OperandWidth(op))
      case Missing => Undecodable
      case Operand(v, next) => Decoded(WithOperand(op, v), next)
    else if op == OP_CLOSURE then
      if ip + 1 >= |code| then Undecodable else
      match ReadOperand(code, ip + 2, if code[ip + 1] == OP_CONSTANT then 1 else 3)
      case Missing => Undecodable
      case Operand(v, next) => Decoded(IClosure(v), next)
    else if op == OP_SET_IF_LOCAL || op == OP_SET_IF_LOCAL_LONG then
      if ip + 10 <= |code| then
        Decoded(ISetIfLocal(code[ip + 1], DecodeInt(code[ip + 2..ip + 10])), ip + 10)
      else Undecodable
    else
      match Plain(op)
      case Some(i) => Decoded(i, ip + 1)
      case None => Undecodable
  }

  /** `bytes` stands in `code` at position `ip`. */
  predicate At(code: seq<Byte>, ip: nat, bytes: seq<Byte>) {
    && ip + |bytes| <= |code|
    && forall i :: 0 <= i < |bytes| ==> code[ip + i] == bytes[i]
  }

  lemma AtSlice(code: seq<Byte>, ip: nat, bytes: seq<Byte>)
    ensures At(code, ip, bytes) <==> ip + |bytes| <= |code| && code[ip..ip + |bytes|] == bytes
  {
    if ip + |bytes| <= |code| && code[ip..ip + |bytes|] == bytes {
      forall i | 0 <= i < |bytes|
        ensures code[ip + i] == bytes[i]
      {
        assert code[ip..ip + |bytes|][i] == bytes[i];
      }
    }
  }

  lemma AtAppend(code: seq<Byte>, ip: nat, a: seq<Byte>, b: seq<Byte>)
    ensures At(code, ip, a + b) <==> At(code, ip, a) && At(code, ip + |a|, b)
  {
    if At(code, ip, a + b) {
      forall i | 0 <= i < |b|
        ensures code[ip + |a| + i] == b[i]
      {
        assert (a + b)[|a| + i] == b[i];
      }
      forall i | 0 <= i < |a|
        ensures code[ip + i] == a[i]
      {
        assert (a + b)[i] == a[i];
      }
    }
  }

  /** Operands for which writing and reading back agree: they fit their field, and the
      slot of a conditional store fits one byte. */
  predicate Encodable(i: Instr) {
    match i
    case IInfix(op) => !IsLogical(op)
    case IPopN(n) => n <= 255
    case ICall(n) => n <= 255
    case IConst(k) => k <= UINT24_MAX
    case IClosure(k) => k <= UINT24_MAX
    case IGetLocal(k) => k <= UINT24_MAX
    case ISetLocal(k) => k <= UINT24_MAX
    case ISetIfLocal(k, test) => k <= 255 && test < Power256(8)
    case ICondJump(d) => d <= UINT24_MAX
    case ICondJumpLeave(d) => d <= UINT24_MAX
    case ICondTruthyJumpLeave(d) => d <= UINT24_MAX
    case IJump(d) => d <= UINT24_MAX
    case ILoop(d) => d <= UINT24_MAX
    case _ => true
  }

  lemma OneByte(b: Byte)
    ensures DecodeInt([b]) == b
  {
    assert [b][1..] == [];
  }

  /** A three-byte operand that fits is read back. */
  lemma ReadThree(code: seq<Byte>, ip: nat, v: nat)
    requires At(code, ip, EncodeInt(v, 3)) && v <= UINT24_MAX
    ensures ReadOperand(code, ip, 3) == Operand(v, ip + 3)
  {
    assert Power256(1) == 256 * Power256(0);
    DecodeEncode(v, 3);
    AtSlice(code, ip, EncodeInt(v, 3));
  }

  lemma ReadIndexed(code: seq<Byte>, ip: nat, short: Byte, long: Byte, k: nat)
    requires At(code, ip, Indexed(short, long, k)) && k <= UINT24_MAX
    ensures ip < |code| && code[ip] == (if k <= 255 then short else long)
    ensures ReadOperand(code, ip + 1, if k <= 255 then 1 else 3) == Operand(k, ip + |Indexed(short, long, k)|)
  {
    var bytes := Indexed(short, long, k);
    assert code[ip] == bytes[0];
    if k <= 255 {
      assert code[ip + 1] == bytes[1];
      assert code[ip + 1..ip + 2] == [code[ip + 1]];
      OneByte(k);
    } else {
      AtAppend(code, ip, [long], EncodeInt(k, 3));
      ReadThree(code, ip + 1, k);
    }
  }

  lemma ReadJump(code: seq<Byte>, ip: nat, op: Byte, d: nat)
    requires At(code, ip, JumpBytes(op, d)) && d <= UINT24_MAX
    ensures ip < |code| && code[ip] == op
    ensures ReadOperand(code, ip + 1, 3) == Operand(d, ip + 4)
  {
    AtAppend(code, ip, [op], EncodeInt(d, 3));
    assert code[ip] == [op][0];
    ReadThree(code, ip + 1, d);
  }

  lemma ReadByte(code: seq<Byte>, ip: nat, op: Byte, b: Byte)
    requires At(code, ip, [op, b])
    ensures ip < |code| && code[ip] == op
    ensures ReadOperand(code, ip + 1, 1) == Operand(b, ip + 2)
  {
    assert code[ip] == [op, b][0] && code[ip + 1] == [op, b][1];
    assert code[ip + 1..ip + 2] == [b];
    OneByte(b);
  }

  predicate IsOperator(i: Instr) {
    i.IPrefix? || i.IPostfix? || i.IInfix?
  }

  lemma DecodeOperator(code: seq<Byte>, ip: nat, i: Instr)
    requires IsOperator(i) && Encodable(i) && At(code, ip, Encode(i))
    ensures Decode(code, ip) == Decoded(i, ip + 1)
  {
    assert code[ip] == Encode(i)[0];
    OperatorTables();
  }

  lemma DecodePlain(code: seq<Byte>, ip: nat, i: Instr)
    requires i.IPop? || i.ISave? || i.IPushSaved? || i.INull? || i.IBool? || i.IPrint? || i.IReturn?
    requires At(code, ip, Encode(i))
    ensures Decode(code, ip) == Decoded(i, ip + 1)
  {
    assert code[ip] == Encode(i)[0];
  }

  lemma DecodeWide(code: seq<Byte>, ip: nat, i: Instr)
    requires i.IConst? || i.IGetLocal? || i.ISetLocal? || i.IPopN? || i.ICall?
    requires Encodable(i) && At(code, ip, Encode(i))
    ensures Decode(code, ip) == Decoded(i, ip + |Encode(i)|)
  {
    match i {
      case IPopN(n) => ReadByte(code, ip, OP_POP_N, n);
      case ICall(n) => ReadByte(code, ip, OP_CALL, n);
      case IConst(k) => ReadIndexed(code, ip, OP_CONSTANT, OP_CONSTANT_LONG, k);
      case IGetLocal(k) => ReadIndexed(code, ip, OP_GET_LOCAL, OP_GET_LOCAL_LONG, k);
      case ISetLocal(k) => ReadIndexed(code, ip, OP_SET_LOCAL, OP_SET_LOCAL_LONG, k);
    }
  }

  lemma DecodeJump(code: seq<Byte>, ip: nat, i: Instr)
    requires i.ICondJump? || i.ICondJumpLeave? || i.ICondTruthyJumpLeave? || i.IJump? || i.ILoop?
    requires Encodable(i) && At(code, ip, Encode(i))
    ensures Decode(code, ip) == Decoded(i, ip + 4)
  {
    match i {
      case ICondJump(d) => ReadJump(code, ip, OP_CONDITIONAL_JUMP, d);
      case ICondJumpLeave(d) => ReadJump(code, ip, OP_CONDITIONAL_JUMP_LEAVE, d);
      case ICondTruthyJumpLeave(d) => ReadJump(code, ip, OP_CONDITIONAL_TRUTHY_JUMP_LEAVE, d);
      case IJump(d) => ReadJump(code, ip, OP_JUMP, d);
      case ILoop(d) => ReadJump(code, ip, OP_LOOP, d);
    }
  }

  lemma DecodeClosure(code: seq<Byte>, ip: nat, k: nat)
    requires k <= UINT24_MAX && At(code, ip, Encode(IClosure(k)))
    ensures Decode(code, ip) == Decoded(IClosure(k), ip + |Encode(IClosure(k))|)
  {
    AtAppend(code, ip, [OP_CLOSURE], ConstBytes(k));
    assert code[ip] == [OP_CLOSURE][0];
    ReadIndexed(code, ip + 1, OP_CONSTANT, OP_CONSTANT_LONG, k);
  }

  lemma ReadEight(code: seq<Byte>, ip: nat, bytes: seq<Byte>, v: nat)
    requires v < Power256(8) && bytes == EncodeInt(v, 8) && At(code, ip, bytes)
    ensures |bytes| == 8 && DecodeInt(code[ip..ip + 8]) == v
  {
    DecodeEncode(v, 8);
    AtSlice(code, ip, bytes);
  }

  lemma DecodeSetIf(code: seq<Byte>, ip: nat, k: nat, test: nat)
    requires k <= 255 && test < Power256(8) && At(code, ip, Encode(ISetIfLocal(k, test)))
    ensures Decode(code, ip) == Decoded(ISetIfLocal(k, test), ip + 10)
  {
    var word := EncodeInt(test, 8);
    AtAppend(code, ip, [OP_SET_IF_LOCAL, k], word);
    assert code[ip] == [OP_SET_IF_LOCAL, k][0] && code[ip + 1] == [OP_SET_IF_LOCAL, k][1];
    ReadEight(code, ip + 2, word, test);
  }

  /** Decoding at the start of an encoded instruction returns that instruction and the
      position after its last byte. */
  lemma DecodeEncoded(code: seq<Byte>, ip: nat, i: Instr)
    requires Encodable(i) && At(code, ip, Encode(i))
    ensures Decode(code, ip) == Decoded(i, ip + |Encode(i)|)
  {
    if IsOperator(i) {
      DecodeOperator(code, ip, i);
    } else if i.IClosure? {
      DecodeClosure(code, ip, i.index);
    } else if i.ISetIfLocal? {
      DecodeSetIf(code, ip, i.slot, i.test);
    } else if i.IConst? || i.IGetLocal? || i.ISetLocal? || i.IPopN? || i.ICall? {
      DecodeWide(code, ip, i);
    } else if i.ICondJump? || i.ICondJumpLeave? || i.ICondTruthyJumpLeave? || i.IJump? || i.ILoop? {
      DecodeJump(code, ip, i);
    } else {
      DecodePlain(code, ip, i);
    }
  }

  /** A conditional store written for `slot` is read back whole exactly when the slot
      fits one byte; otherwise the machine stops two bytes short of its end. */
  lemma ConditionalStoreReadBack(slot: nat, test: nat)
    requires slot <= UINT24_MAX && test < Power256(8)
    ensures Decode(Encode(ISetIfLocal(slot, test)), 0) == Decoded(ISetIfLocal(slot, test), |Encode(ISetIfLocal(slot, test))|)
            <==> slot <= 255
  {
    var bytes := Encode(ISetIfLocal(slot, test));
    if slot <= 255 {
      assert At(bytes, 0, bytes);
      DecodeEncoded(bytes, 0, ISetIfLocal(slot, test));
    } else {
      assert |bytes| == 12 && bytes[0] == OP_SET_IF_LOCAL_LONG;
      assert Decode(bytes, 0).next == 10;
    }
  }

  // ----- the format, in numbers -----

  /** Three bytes carry the numbers below 2 to the 24th, the least significant byte first. */
  lemma ThreeBytes(a: Byte, b: Byte, c: Byte, v: nat)
    ensures EncodeInt(a + 256 * b + 65536 * c, 3) == [a, b, c] && DecodeInt([a, b, c]) == a + 256 * b + 65536 * c
    ensures DecodeInt(EncodeInt(v, 3)) == v <==> v < 0x100_0000
  {
    assert [a, b, c][1..] == [b, c] && [b, c][1..] == [c];
    OneByte(c);
    assert DecodeInt([b, c]) == b + 256 * DecodeInt([c]);
    EncodeDecode([a, b, c]);
    FitsExactly(v, 3);
    assert Power256(1) == 256 && Power256(2) == 65536 && Power256(3) == 0x100_0000;
  }

  /** So every operand of three bytes is read back exactly up to 16777215: distances, slots
      and constants alike. */
  lemma ReadBackExactly(i: Instr)
    requires i.ICondJump? || i.ICondJumpLeave? || i.ICondTruthyJumpLeave? || i.IJump? || i.ILoop?
             || i.IConst? || i.IGetLocal? || i.ISetLocal?
    ensures Decode(Encode(i), 0) == Decoded(i, |Encode(i)|) <==> OperandOf(i) <= 16777215
  {
    var v, bytes := OperandOf(i), Encode(i);
    if v <= 16777215 {
      assert At(bytes, 0, bytes);
      DecodeEncoded(bytes, 0, i);
    } else if bytes != [] {
      ThreeBytes(0, 0, 0, v);
      assert bytes[1..4] == EncodeInt(v, 3);
    }
  }

  function OperandOf(i: Instr): nat
    requires i.ICondJump? || i.ICondJumpLeave? || i.ICondTruthyJumpLeave? || i.IJump? || i.ILoop?
             || i.IConst? || i.IGetLocal? || i.ISetLocal?
  {
    match i
    case IConst(k) => k
    case IGetLocal(k) => k
    case ISetLocal(k) => k
    case ICondJump(d) => d
    case ICondJumpLeave(d) => d
    case ICondTruthyJumpLeave(d) => d
    case IJump(d) => d
    case ILoop(d) => d
  }

  /** The short form is for indices up to 255, and a constant past the last index is not
      written at all. */
  lemma FormsByIndex(k: nat)
    ensures |GetBytes(k)| == |SetBytes(k)| == if k <= 255 then 2 else 4
    ensures |ConstBytes(k)| == if k <= 255 then 2 else if k <= 16777215 then 4 else 0
    ensures |SetIfBytes(k, IS_PRIMITIVE_ADDRESS)| == if k <= 255 then 10 else 12
  {
  }

  /** The operators in the order of the enum of opcodes. */
  function Enumerated(i: nat): Instr
    requires i < 35
  {
    match i
    case 0 => IPrefix(Bang)
    case 1 => IPrefix(Plus)
    case 2 => IPrefix(Minus)
    case 3 => IInfix(Add)
    case 4 => IPrefix(Tilde)
    case 5 => IPrefix(Increment)
    case 6 => IPrefix(Decrement)
    case 7 => IPostfix(PostIncrement)
    case 8 => IPostfix(PostDecrement)
    case 9 => IInfix(Sub)
    case 10 => IInfix(Mul)
    case 11 => IInfix(Div)
    case 12 => IInfix(Modulo)
    case 13 => IInfix(Xor)
    case 14 => IInfix(BitOr)
    case 15 => IInfix(BitAnd)
    case 16 => IInfix(ShiftLeft)
    case 17 => IInfix(ShiftRight)
    case 18 => IInfix(Equal)
    case 19 => IInfix(NotEqual)
    case 20 => IInfix(Greater)
    case 21 => IInfix(Less)
    case 22 => IInfix(GreaterEqual)
    case 23 => IInfix(LessEqual)
    case 24 => IInfix(AddAssign)
    case 25 => IInfix(SubAssign)
    case 26 => IInfix(MulAssign)
    case 27 => IInfix(DivAssign)
    case 28 => IInfix(ModAssign)
    case 29 => IInfix(AndAssign)
    case 30 => IInfix(XorAssign)
    case 31 => IInfix(OrAssign)
    case 32 => IInfix(ShiftLeftAssign)
    case 33 => IInfix(ShiftRightAssign)
    case 34 => IInfix(As)
  }

  /** They are numbered from 28 on, and read back. */
  lemma OperatorsInOrder(i: nat, rest: seq<Byte>)
    requires i < 35
    ensures Encodable(Enumerated(i)) && Encode(Enumerated(i)) == [28 + i]
    ensures Decode([28 + i] + rest, 0) == Decoded(Enumerated(i), 1)
  {
    hide Decode, Enumerated;
    NumberedFrom28(i);
    var code := [28 + i] + rest;
    assert At(code, 0, [28 + i]);
    DecodeOperator(code, 0, Enumerated(i));
  }

  lemma NumberedFrom28(i: nat)
    requires i < 35
    ensures IsOperator(Enumerated(i)) && Encodable(Enumerated(i)) && Encode(Enumerated(i)) == [28 + i]
  {
  }
}
