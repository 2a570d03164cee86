/**
  * The two ends a pump works between, as far as it can see them: each poll
  * may stall, break, or make some progress, at the peer's choice.
  */
module Sockets {
  import opened Protocol

  datatype Poll<+T> = Pending | Done(value: T) | Broken(error: Error)

  /** What a peer may answer: progress of some size, none yet, or an I/O error. */
  datatype Turn = Stall | Go(n: nat) | Fault

  /** A byte stream that ends; `stalls` and `faults` count the polls that had to wait, and those that failed. */
  class Source {
    var input: Bytes
    ghost var stalls: nat
    ghost var faults: nat

    constructor (input: Bytes)
      ensures this.input == input && stalls == 0 && faults == 0
    {
      this.input := input;
      stalls, faults := 0, 0;
    }

    method PollReady() returns (r: Poll<()>)
      modifies this`stalls, this`faults
      ensures stalls == if r.Pending? then old(stalls) + 1 else old(stalls)
      ensures faults == if r.Broken? then old(faults) + 1 else old(faults)
      ensures r.Broken? ==> r.error == Io
    {
      var turn: Turn := *;
      match turn {
        case Stall =>
          stalls := stalls + 1;
          r := Pending;
        case Fault =>
          faults := faults + 1;
          r := Broken(Io);
        case Go(_) =>
          r := Done(());
      }
    }

    /** Up to `room` bytes; none exactly at the end of the stream, or when there is no room. */
    method PollRead(room: nat) returns (r: Poll<Bytes>)
      modifies this
      ensures stalls == if r.Pending? then old(stalls) + 1 else old(stalls)
      ensures faults == if r.Broken? then old(faults) + 1 else old(faults)
      ensures r.Broken? ==> r.error == Io
      ensures !r.Done? ==> input == old(input)
      ensures r.Done? ==> |r.value| <= room && r.value + input == old(input)
      ensures r.Done? ==> (r.value == [] <==> room == 0 || old(input) == [])
    {
      var turn: Turn := *;
      match turn {
        case Stall =>
          stalls := stalls + 1;
          r := Pending;
        case Fault =>
          faults := faults + 1;
          r := Broken(Io);
        case Go(n) =>
          var most := Min(room, |input|);
          var take := Min(Max(n, 1), most);
          r := Done(input[..take]);
          assert input == input[..take] + input[take..];
          input := input[take..];
      }
    }
  }

  /** Where bytes are written to; `closed` counts completed shutdowns. */
  class Sink {
    var output: Bytes
    var closed: nat
    ghost var stalls: nat
    ghost var faults: nat

    constructor ()
      ensures output == [] && closed == 0 && stalls == 0 && faults == 0
    {
      output, closed := [], 0;
      stalls, faults := 0, 0;
    }

    /** Accept some prefix of `parts` laid end to end; accepting nothing of something is a fault. */
    method PollWrite(parts: seq<Bytes>) returns (r: Poll<nat>)
      modifies this`output, this`stalls, this`faults
      ensures stalls == if r.Pending? then old(stalls) + 1 else old(stalls)
      ensures faults == if r.Broken? || (r == Done(0) && Flatten(parts) != []) then old(faults) + 1 else old(faults)
      ensures r.Broken? ==> r.error == Io
      ensures !r.Done? ==> output == old(output)
      ensures r.Done? ==> r.value <= |Flatten(parts)| && output == old(output) + Flatten(parts)[..r.value]
    {
      var turn: Turn := *;
      match turn {
        case Stall =>
          stalls := stalls + 1;
          r := Pending;
        case Fault =>
          faults := faults + 1;
          r := Broken(Io);
        case Go(n) =>
          var take := Min(n, |Flatten(parts)|);
          output := output + Flatten(parts)[..take];
          r := Done(take);
          if take == 0 && Flatten(parts) != [] {
            faults := faults + 1;
          }
      }
    }

    method PollShutdown() returns (r: Poll<()>)
      modifies this`closed, this`stalls, this`faults
      ensures stalls == if r.Pending? then old(stalls) + 1 else old(stalls)
      ensures faults == if r.Broken? then old(faults) + 1 else old(faults)
      ensures closed == if r.Done? then old(closed) + 1 else old(closed)
      ensures r.Broken? ==> r.error == Io
    {
      var turn: Turn := *;
      match turn {
        case Stall =>
          stalls := stalls + 1;
          r := Pending;
        case Fault =>
          faults := faults + 1;
          r := Broken(Io);
        case Go(_) =>
          closed := closed + 1;
          r := Done(());
      }
    }
  }
}
