/** The inputs the checker reads: linearization items and kernel instructions. */
module Linearization {
  import opened Wrappers

  /** A linearization item. Python's `RunInstruction` always carries an
      instruction id; a `Barrier` carries the id of the instruction that
      caused it, or none. */
  datatype LinItem =
    | EnterLoop(iname: string)
    | LeaveLoop(iname: string)
    | RunInstruction(insnId: string)
    | Barrier(originatingInsnId: Option<string>)

  /** A kernel instruction as far as the checker needs it. */
  datatype Instruction = Instruction(id: string, withinInames: set<string>)

  /** `get_insn_id_from_linearization_item`: the originating id of a barrier,
      the instruction id of anything else. Only run/barrier items are passed. */
  function InsnIdOf(item: LinItem): (r: Option<string>)
    requires item.RunInstruction? || item.Barrier?
    ensures item.RunInstruction? ==> r == Some(item.insnId)
    ensures item.Barrier? ==> r == item.originatingInsnId
  {
    match item
    case Barrier(id) => id
    case RunInstruction(id) => Some(id)
  }
}
