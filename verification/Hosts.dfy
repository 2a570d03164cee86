/** The machine a session runs on, as far as it can fail: allocation, and the steps of a seal. */
module Hosts {
  import opened Protocol

  /** Which fallible step of a seal fails, if any. */
  datatype Fault = NoFault | HeaderFault | BodyFault | PaddingFault

  /** Whether the fault is one this record's seal can meet. */
  predicate Strikes(f: Fault, paddingLen: nat, payloadLen: nat)
  {
    match f
    case NoFault => false
    case HeaderFault => true
    case BodyFault => payloadLen > 0
    case PaddingFault => payloadLen > 0 && paddingLen > 0
  }

  /** Decides what fails; `faults` counts the times something did. */
  class Host {
    ghost var faults: nat

    constructor ()
      ensures faults == 0
    {
      faults := 0;
    }

    /** A block of at least `needed` bytes, holding anything, or none. */
    method Allocate(needed: nat) returns (granted: bool, block: Bytes)
      modifies this
      ensures granted ==> |block| >= needed
      ensures faults == if granted then old(faults) else old(faults) + 1
    {
      granted, block := *, *;
      if |block| < needed {
        block := Zeros(needed);
      }
      if !granted {
        faults := faults + 1;
      }
    }

    /** What the next seal meets. */
    method NextSeal() returns (fault: Fault)
      modifies this
      ensures faults == if fault.NoFault? then old(faults) else old(faults) + 1
    {
      fault := *;
      match fault {
        case NoFault =>
        case HeaderFault =>
          faults := faults + 1;
        case BodyFault =>
          faults := faults + 1;
        case PaddingFault =>
          faults := faults + 1;
      }
    }
  }
}
