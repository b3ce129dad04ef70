/** The board validator's incremental decoder. */
module ValidatorDecoder {
  import opened Bytes
  import opened FrameScan
  import opened DebugFrames
  import opened FrameFeed
  import opened FrameStream

  class Decoder {
    var buffer: bytes
    var frames: seq<Frame>
    var checksumErrors: nat
    var syncDrops: nat
    var versionErrors: nat
    var locked: bool
    var badFrames: seq<bytes>

    constructor ()
      ensures State() == FRESH && versionErrors == 0
    {
      buffer, frames, badFrames := [], [], [];
      checksumErrors, syncDrops, versionErrors, locked := 0, 0, 0, false;
    }

    ghost function State(): Parser
      reads this
    {
      Parser(buffer, Tally(frames, checksumErrors, syncDrops, locked, badFrames))
    }

    /** Appends `data` and decides all it can; what the decoder then holds does not depend on earlier cuts. */
    method Feed(data: bytes)
      modifies this
      ensures State() == FrameFeed.Feed(Validator, old(State()), data)
      ensures versionErrors == old(versionErrors)
    {
      buffer := buffer + data;
      ghost var goal := Drain(Validator, State());
      while |buffer| >= 5
        invariant Drain(Validator, State()) == goal && versionErrors == old(versionErrors)
        decreases |buffer|
      {
        ghost var before := State();
        if buffer[0] != SOF {
          DrainStep(Validator, before);
          buffer := buffer[1..];
          syncDrops := syncDrops + 1;
          continue;
        }
        var length := buffer[3] as nat;
        if buffer[1] != VERSION || !KnownType(buffer[2]) || length > MAX_PAYLOAD {
          DrainStep(Validator, before);
          buffer := buffer[1..];
          syncDrops := syncDrops + 1;
          continue;
        }
        var total := length + 5;
        if |buffer| < total {
          DrainWait(Validator, before);
          return;
        }
        Candidate(total);
      }
      DrainWait(Validator, State());
    }

    /** The part of the loop that has a whole candidate at the front of the buffer. */
    method Candidate(total: nat)
      requires |buffer| >= 5 && GoodHeader(Validator, buffer) && total == buffer[3] as nat + 5 <= |buffer|
      modifies this
      ensures Drain(Validator, State()) == Drain(Validator, old(State()))
      ensures |buffer| < |old(buffer)| && versionErrors == old(versionErrors)
    {
      hide Drain;
      var raw := buffer[..total];
      var checksum := FoldChecksum(raw[1..total - 1]);
      ghost var before := State();
      DecideCandidate(Validator, buffer, raw);
      if checksum != raw[total - 1] {
        CountBad(raw);
        buffer := buffer[1..];
        DrainTo(Validator, before, Reject(raw, 1), State());
        return;
      }
      buffer := buffer[total..];
      if raw[1] != VERSION {
        assert false;
      }
      frames := frames + [Frame(raw[1], raw[2], raw[4..total - 1])];
      locked := true;
      DrainTo(Validator, before, Accept(raw), State());
    }

    /** Before the first frame a bad checksum is only a false start. */
    method CountBad(raw: bytes)
      modifies this`checksumErrors, this`badFrames, this`syncDrops
      ensures State().tally == Count(Validator, old(State().tally), Reject(raw, 1))
      ensures if old(locked)
              then checksumErrors == old(checksumErrors) + 1 && syncDrops == old(syncDrops)
                   && badFrames == (if |old(badFrames)| < 4 then old(badFrames) + [raw] else old(badFrames))
              else syncDrops == old(syncDrops) + 1 && checksumErrors == old(checksumErrors)
                   && badFrames == old(badFrames)
    {
      if locked {
        checksumErrors := checksumErrors + 1;
        if |badFrames| < 4 {
          badFrames := badFrames + [raw];
        }
      } else {
        syncDrops := syncDrops + 1;
      }
    }
  }
}
