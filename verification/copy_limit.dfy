/** The execution monitor of a graph-copy increment. */
module CopyLimit {

  const CALL_THRESHOLD: nat := 1_000
  const MEMORY_THRESHOLD: nat := 256 * 1024
  const WORD_SIZE: nat := 8

  class ExecutionMonitor {
    const instructionLimit: nat
    const stableMemoryAccessLimit: nat

    // Instructions since the beginning of the measurement.
    var instructions: nat
    var initialProcessedMemory: nat
    var callCounter: nat
    var lastProcessed: nat
    var exceeded: bool

    ghost predicate Valid()
      reads this
    {
      callCounter < CALL_THRESHOLD && (exceeded ==> instructions > instructionLimit)
    }

    /** The increment has accessed as much memory as it may. */
    ghost predicate Spent(processedMemory: nat)
      reads this
    {
      processedMemory > initialProcessedMemory + stableMemoryAccessLimit
    }

    /** The increment has used up one of its limits. */
    ghost predicate Exhausted(processedMemory: nat)
      reads this
    {
      instructions > instructionLimit || Spent(processedMemory)
    }

    /** Nothing has been done since the beginning of the measurement. */
    ghost predicate Begins(processedMemory: nat)
      reads this
    {
      instructions == 0 && processedMemory == initialProcessedMemory
    }

    constructor (instructionLimit: nat, stableMemoryAccessLimit: nat)
      ensures Valid() && this.instructionLimit == instructionLimit
      ensures this.stableMemoryAccessLimit == stableMemoryAccessLimit
    {
      this.instructionLimit, this.stableMemoryAccessLimit := instructionLimit, stableMemoryAccessLimit;
      instructions, initialProcessedMemory := 0, 0;
      callCounter, lastProcessed, exceeded := 0, 0, false;
    }

    /** Work takes any number of instructions. */
    method Execute()
      requires Valid()
      modifies this`instructions
      ensures Valid() && instructions >= old(instructions)
    {
      var more :| more >= 0;
      instructions := instructions + more;
    }

    method Reset(processedMemory: nat)
      modifies this
      ensures Valid() && Begins(processedMemory)
    {
      instructions, initialProcessedMemory := 0, processedMemory;
      callCounter, lastProcessed, exceeded := 0, 0, false;
    }

    /** The instruction counter is consulted only now and then, the processed memory always. */
    method IsExceeded(processedMemory: nat) returns (over: bool)
      requires Valid()
      modifies this`callCounter, this`lastProcessed, this`exceeded
      ensures Valid() && (over ==> Exhausted(processedMemory))
      ensures Begins(processedMemory) ==> !over
      // What is used up is noticed, instructions after some more calls or memory.
      ensures !over ==> !Spent(processedMemory)
      ensures !over && instructions > instructionLimit ==>
                callCounter == old(callCounter) + 1 && processedMemory < lastProcessed + MEMORY_THRESHOLD
    {
      if processedMemory > initialProcessedMemory + stableMemoryAccessLimit {
        return true;
      }
      callCounter := callCounter + 1;
      if processedMemory >= lastProcessed + MEMORY_THRESHOLD || callCounter >= CALL_THRESHOLD {
        callCounter := 0;
        lastProcessed := processedMemory;
        exceeded := instructions > instructionLimit;
      }
      over := exceeded;
    }
  }
}
