/** The already-lexed waveform tokens the core consumes (the tokenizer itself
    is an external library and is not modelled), and the faults the core can
    raise while consuming them. */
module Tokens {

  /** The bit index of a declaration such as `data [3]` or `bus [7:0]`:
      absent for a plain scalar, a single integer, or an (msb, lsb) range. */
  datatype BitIndex = NoIndex | Bit(index: int) | Range(msb: int, lsb: int)

  /** A `$var` declaration. `size` is the declared width; the core never reads
      it, but it is part of the declaration that gets stored. */
  datatype VarDecl = VarDecl(size: nat, idCode: string, reference: string, bitIndex: BitIndex)

  /** The payload of a scalar or vector change. The tokenizer may hand back a
      vector value as an integer instead of a string; such a value cannot be
      joined into a channel value later on. */
  datatype ChangeValue = Text(text: string) | Number(number: int)

  datatype Change = Change(idCode: string, value: ChangeValue)

  datatype Token =
    | Scope(ident: string)
    | Var(decl: VarDecl)
    | Time(time: int)
    | Scalar(change: Change)
    | Vector(change: Change)
    | Real(realIdCode: string, realValue: real)
    | String(stringIdCode: string, stringValue: string)
      /** Every other token kind ($date, $timescale, $upscope, $comment,
          $dumpvars, ...): the core ignores them all. */
    | Other

  /** The exceptions the source raises, each at a fixed point of the code. */
  datatype Fault =
      /** a `$var` before any `$scope`: `scope` is still unbound */
    | VarBeforeScope(position: nat)
      /** a scalar or vector change before any timestamp: `time` is still unbound */
    | ChangeBeforeTime(position: nat)
      /** sorting a group whose bit indices are of different kinds (None, int,
          tuple) compares incomparable values */
    | UnorderableBitIndices
      /** writing a change into the value buffer at an index that is out of
          range or is not an integer */
    | BitIndexFault(time: int, idCode: string)
      /** joining a value buffer that holds a non-string value */
    | NonTextValue(time: int)
}
