/** The intermediate code shared by the middle end and the back end: addresses and quads. */
module Ic {

  datatype OpKind =
    // x = y op z
    | OpAdd | OpSub | OpMul | OpDiv | OpRem | OpSHL | OpSHR | OpAnd | OpOr | OpXor
    | OpEQ | OpNEQ | OpLT | OpLET | OpGT | OpGET
    // x = op y
    | OpNeg | OpCmpl | OpNot | OpCh | OpUCh | OpSh | OpUSh | OpLLSX | OpLLZX
    | OpAddrOf | OpInd | OpAsn | OpCall | OpIndCall
    // *x = y
    | OpIndAsn
    | OpLab | OpJmp | OpArg | OpRet | OpSwitch | OpCase | OpCBr | OpBegArg | OpNOp

  /** An entry of the address table. A constant holds a value; the other kinds carry a name number (nid). */
  datatype Address =
    | IConst(val: int)
    | StrLit(str: string)
    | Id(vnid: nat)
    | Temp(tnid: nat)
  {
    predicate IsConst() { IConst? || StrLit? }

    function Nid(): nat
      requires !IsConst()
    {
      if Id? then vnid else tnid
    }
  }

  /** tar, arg1 and arg2 index the address table; entry 0 means "none". The flag stands for
      the part of the quad's type that selects unsigned division, shift and comparison. */
  datatype Quad = Quad(op: OpKind, isUnsigned: bool, tar: nat, arg1: nat, arg2: nat)

  /** How a quad uses its operands. */
  datatype Shape = Binary | Unary | Sink | AddrOf | Ind | IndAsn | Call | IndCall | Other

  function ShapeOf(op: OpKind): Shape {
    match op
    case OpAdd | OpSub | OpMul | OpDiv | OpRem | OpSHL | OpSHR | OpAnd | OpOr | OpXor => Binary
    case OpEQ | OpNEQ | OpLT | OpLET | OpGT | OpGET => Binary
    case OpNeg | OpCmpl | OpNot | OpCh | OpUCh | OpSh | OpUSh | OpLLSX | OpLLZX | OpAsn => Unary
    case OpArg | OpRet | OpSwitch | OpCBr => Sink
    case OpAddrOf => AddrOf
    case OpInd => Ind
    case OpIndAsn => IndAsn
    case OpCall => Call
    case OpIndCall => IndCall
    case OpLab | OpJmp | OpCase | OpBegArg | OpNOp => Other
  }
}
