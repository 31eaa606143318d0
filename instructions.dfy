/** The instructions of the revLANG IR as the header documents them.  An
    operand is a global variable, named here by its `unsigned` id.  Only
    the operand counts are documented (the constructors, `dump` and the
    opcode strings have no body here), so an instruction is its kind and
    its operand list, and each constructor demands the documented count. */
module Instructions {

  /** `unsigned`, as the id of a global variable. */
  newtype u32 = x: int | 0 <= x < 0x1_0000_0000

  datatype Kind = Load | Store | Add

  datatype Instruction = Instruction(kind: Kind, ops: seq<u32>)

  /** The operand count documented for each kind: one for a load, two for
      a store, three or more for an add. */
  predicate ArityOk(kind: Kind, n: nat)
  {
    match kind
    case Load => n == 1
    case Store => n == 2
    case Add => n >= 3
  }

  predicate WellFormed(i: Instruction)
  {
    ArityOk(i.kind, |i.ops|)
  }

  /** The address a well-formed load reads. */
  function LoadAddress(i: Instruction): u32
    requires i.kind == Load && WellFormed(i)
  {
    i.ops[0]
  }

  /** The value a well-formed store writes: its first operand. */
  function StoredValue(i: Instruction): u32
    requires i.kind == Store && WellFormed(i)
  {
    i.ops[0]
  }

  /** The address a well-formed store writes to: its second operand. */
  function StoreAddress(i: Instruction): u32
    requires i.kind == Store && WellFormed(i)
  {
    i.ops[1]
  }

  /** A load of the single operand, the address. */
  function NewLoad(ops: seq<u32>): (i: Instruction)
    requires |ops| == 1
    ensures WellFormed(i) && i.kind == Load && LoadAddress(i) == ops[0]
  {
    Instruction(Load, ops)
  }

  /** A store of `ops[0]` to the address `ops[1]`. */
  function NewStore(ops: seq<u32>): (i: Instruction)
    requires |ops| == 2
    ensures WellFormed(i) && i.kind == Store
    ensures StoredValue(i) == ops[0] && StoreAddress(i) == ops[1]
  {
    Instruction(Store, ops)
  }

  /** An add over three or more operands. */
  function NewAdd(ops: seq<u32>): (i: Instruction)
    requires |ops| >= 3
    ensures WellFormed(i) && i.kind == Add && i.ops == ops
  {
    Instruction(Add, ops)
  }

  /** The constructors make exactly the well-formed instructions: a
      well-formed one is rebuilt from its operands by the constructor of
      its kind, and a well-formed store's operands are its value and its
      address. */
  lemma WellFormedIsConstructed(i: Instruction)
    requires WellFormed(i)
    ensures match i.kind
            case Load => i == NewLoad(i.ops) && i.ops == [LoadAddress(i)]
            case Store => i == NewStore(i.ops) && i.ops == [StoredValue(i), StoreAddress(i)]
            case Add => i == NewAdd(i.ops)
  {
  }
}
