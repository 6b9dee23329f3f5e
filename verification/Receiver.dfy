/** The command-line receiver: the same accounting, kept inside its receive loop. */
module Receiver {
  import opened Binary
  import opened Options
  import opened Sequence
  import Wire

  datatype ReceiverStats = ReceiverStats(received: nat, valid: nat, rejected: nat, lost: nat, reordered: nat)

  function Results(datagrams: seq<seq<uint8>>): (results: seq<Wire.DecodeResult>)
    ensures |results| == |datagrams|
  {
    seq(|datagrams|, i requires 0 <= i < |datagrams| => Wire.Deserialize(datagrams[i]))
  }

  // The sequence numbers of the first n datagrams that are valid packets.
  function Accepted(results: seq<Wire.DecodeResult>, n: nat): (sequences: seq<uint32>)
    requires n <= |results|
    ensures |sequences| <= n
    decreases n
  {
    if n == 0 then []
    else
      match results[n - 1]
      case Rejected(_) => Accepted(results, n - 1)
      case Accepted(telemetry) => Accepted(results, n - 1) + [telemetry.sequence]
  }

  // The loop's accounting of one valid packet.
  method Account(stats: ReceiverStats, latest: Option<uint32>, sequence: uint32)
    returns (after: ReceiverStats, latestSequence: Option<uint32>)
    ensures Tracking(latestSequence, after.lost, after.reordered)
         == Observed(Tracking(latest, stats.lost, stats.reordered), sequence)
    ensures after.received == stats.received && after.valid == stats.valid && after.rejected == stats.rejected
  {
    after, latestSequence := stats, latest;
    if latestSequence.Some? {
      var delta := Delta(sequence, latestSequence.value);
      if delta > 1 && delta < 0x80000000 {
        after := after.(lost := after.lost + delta - 1);
      } else if delta == 0 || delta >= 0x80000000 {
        after := after.(reordered := after.reordered + 1);
      }
      if delta > 0 && delta < 0x80000000 {
        latestSequence := Some(sequence);
      }
    } else {
      latestSequence := Some(sequence);
    }
  }

  /** The receiver counts each datagram as valid or rejected and reports the losses a SequenceTracker
      reports for the valid ones. */
  method Receive(datagrams: seq<seq<uint8>>, maximumPackets: nat) returns (stats: ReceiverStats)
    ensures stats.received ==
      if maximumPackets == 0 || |datagrams| < maximumPackets then |datagrams| else maximumPackets
    ensures var sequences := Accepted(Results(datagrams), stats.received);
      && stats.valid == |sequences| && stats.valid + stats.rejected == stats.received
      && stats.lost == Tracked(sequences, |sequences|).lost
      && stats.reordered == Tracked(sequences, |sequences|).reordered
  {
    stats := ReceiverStats(0, 0, 0, 0, 0);
    var latestSequence: Option<uint32> := None;
    ghost var results := Results(datagrams);
    ghost var sequences: seq<uint32> := [];
    while stats.received < |datagrams| && (maximumPackets == 0 || stats.received < maximumPackets)
      invariant stats.received <= |datagrams| && (maximumPackets > 0 ==> stats.received <= maximumPackets)
      invariant sequences == Accepted(results, stats.received)
      invariant stats.valid == |sequences| && stats.valid + stats.rejected == stats.received
      invariant Tracked(sequences, |sequences|) == Tracking(latestSequence, stats.lost, stats.reordered)
    {
      var result := Wire.Deserialize(datagrams[stats.received]);
      stats := stats.(received := stats.received + 1);
      if result.Rejected? {
        stats := stats.(rejected := stats.rejected + 1);
        continue;
      }
      stats := stats.(valid := stats.valid + 1);
      TrackedExtended(sequences, result.telemetry.sequence);
      sequences := sequences + [result.telemetry.sequence];
      stats, latestSequence := Account(stats, latestSequence, result.telemetry.sequence);
    }
  }
}
