/** The node that keeps a client's estimate of the server's clock.

    A client pings the server at most once per 1 / PingAndSyncFrequency
    seconds; the server answers with its own local time; on the answer the
    client takes the clock offset and the round-trip time, records the
    round trip in a six-slot ring and re-smooths. Local time is never read
    from a clock here: every operation that needs it takes `now`. */
module ClockSync {
  import opened PingSmoothing

  /** What the node can ask Godot's multiplayer API: whether a peer object is
      set, whether its connection status is Connected, and whether this
      process is the server. */
  datatype Multiplayer = Multiplayer(hasPeer: bool, connected: bool, isServer: bool)

  /** A peer is set and its status is Connected. */
  predicate IsConnected(m: Multiplayer)
  {
    m.hasPeer && m.connected
  }

  /** The debug role check in front of client-only handlers: it throws only on
      a connected server. */
  predicate ClientCheckPasses(m: Multiplayer)
  {
    !(IsConnected(m) && m.isServer)
  }

  /** The debug role check in front of server-only handlers: it throws only on
      a connected client. */
  predicate ServerCheckPasses(m: Multiplayer)
  {
    !(IsConnected(m) && !m.isServer)
  }

  /** The throttle in the per-frame update: a connected client whose next sync
      time has passed sends a ping. */
  predicate PingDue(m: Multiplayer, now: real, nextSyncTime: real)
  {
    IsConnected(m) && !m.isServer && now > nextSyncTime
  }

  /** The server's answer to a ping: its local time, or the role check's exception. */
  datatype PingReply = Pong(serverTime: real) | RoleError

  /** The server-side ping handler: after the role check, the reply carries the
      server's current local time. */
  function CommandPingReply(m: Multiplayer, now: real): (r: PingReply)
    ensures r.Pong? <==> ServerCheckPasses(m)
    ensures r.Pong? ==> r.serverTime == now
  {
    if ServerCheckPasses(m) then Pong(now) else RoleError
  }

  class NetworkTime {
    /** Pings (and clock syncs) per second, an editor setting. */
    const pingAndSyncFrequency: real
    /** The ring of round-trip samples; the array itself is never replaced. */
    const pingSamples: array<real>
    var nextSampleIndex: int
    /** Local time at which the next ping is due. */
    var nextSyncTime: real
    /** Server clock minus local clock, as of the last pong. */
    var localToServerTimeOffset: real
    /** The last round-trip time. */
    var ping: real
    var smoothedPing: FloatValue
    /** Local time the outstanding ping was sent. */
    var localPingTime: real

    ghost predicate Valid()
      reads this
    {
      && pingSamples.Length == SampleCount
      && 0 <= nextSampleIndex < SampleCount
      && pingAndSyncFrequency != 0.0
    }

    /** The ring as a value. */
    ghost function RingState(): (r: Ring)
      reads this, pingSamples
      requires Valid()
      ensures r.Valid()
    {
      Ring(pingSamples[..], nextSampleIndex)
    }

    /** The field initialisers: no sample, index 0, every time and ping 0. */
    constructor (frequency: real)
      requires frequency != 0.0
      ensures Valid() && fresh(pingSamples)
      ensures pingAndSyncFrequency == frequency
      ensures RingState() == Ring(seq(SampleCount, _ => 0.0), 0)
      ensures nextSyncTime == 0.0 && localToServerTimeOffset == 0.0 && localPingTime == 0.0
      ensures ping == 0.0 && smoothedPing == Real(0.0)
    {
      pingAndSyncFrequency := frequency;
      pingSamples := new real[SampleCount](_ => 0.0);
      nextSampleIndex := 0;
      nextSyncTime := 0.0;
      localToServerTimeOffset := 0.0;
      ping := 0.0;
      smoothedPing := Real(0.0);
      localPingTime := 0.0;
      new;
      assert pingSamples[..] == seq(SampleCount, _ => 0.0);
    }

    /** Entering the scene tree clears the samples. */
    method Ready()
      requires Valid()
      modifies pingSamples
      ensures Valid()
      ensures RingState() == Reset(old(RingState()))
    {
      ResetPingSamples();
    }

    /** Zeroes every slot; the write index stays where it was. */
    method ResetPingSamples()
      requires Valid()
      modifies pingSamples
      ensures Valid()
      ensures RingState() == Reset(old(RingState()))
    {
      for i := 0 to pingSamples.Length
        invariant forall j :: 0 <= j < i ==> pingSamples[j] == 0.0
      {
        pingSamples[i] := 0.0;
      }
      assert pingSamples[..] == Reset(old(RingState())).samples;
    }

    /** Writes the sample at the write index and advances the index modulo 6;
        the other five slots keep their values. */
    method RecordPingSample(newPingSample: real)
      requires Valid()
      modifies this`nextSampleIndex, pingSamples
      ensures Valid()
      ensures RingState() == Record(old(RingState()), newPingSample)
      ensures nextSampleIndex == (old(nextSampleIndex) + 1) % SampleCount
      ensures pingSamples[old(nextSampleIndex)] == newPingSample
      ensures forall i :: 0 <= i < SampleCount && i != old(nextSampleIndex) ==> pingSamples[i] == old(pingSamples[i])
    {
      pingSamples[nextSampleIndex] := newPingSample;
      nextSampleIndex := (nextSampleIndex + 1) % SampleCount;
    }

    /** The weighted mean of the ring, walking back from the newest slot. */
    method AveragePingSamples() returns (r: FloatValue)
      requires Valid()
      ensures r == Average(RingState())
    {
      var sum := 0.0;
      var totalWeight := 0.0;

      var index := nextSampleIndex - 1;
      if index < 0 {
        index := SampleCount - 1;
      }

      var temporalDistance := 0;
      ghost var recent := Recent(RingState());

      while temporalDistance != pingSamples.Length
        invariant 0 <= temporalDistance <= SampleCount
        invariant 0 <= index < SampleCount && index == Slot(nextSampleIndex, temporalDistance)
        invariant sum == WeightedSum(recent, temporalDistance)
        invariant totalWeight == TotalWeight(recent, temporalDistance)
        decreases SampleCount - temporalDistance
      {
        var samplePing := pingSamples[index];
        assert samplePing == recent[temporalDistance];
        if samplePing > 0.0 {
          var weight := Weights[temporalDistance];
          sum := sum + samplePing * weight;
          totalWeight := totalWeight + weight;
        }

        assert sum == WeightedSum(recent, temporalDistance + 1);
        assert totalWeight == TotalWeight(recent, temporalDistance + 1);
        SlotStep(nextSampleIndex, temporalDistance);
        index := index - 1;
        if index < 0 {
          index := pingSamples.Length - 1;
        }
        temporalDistance := temporalDistance + 1;
      }

      r := if totalWeight == 0.0 then NaN else Real(sum / totalWeight);
    }

    function GetPing(): (p: real)
      reads this
    {
      ping
    }

    function GetPingSmoothed(): (p: FloatValue)
      reads this
    {
      smoothedPing
    }

    /** The client-side pong handler: after the role check, the offset is the
        server's time minus now, the ping is now minus the send time, the ping
        is recorded and the smoothed ping recomputed from the ring. */
    method RpcPong(m: Multiplayer, latestNetworkTime: real, now: real) returns (accepted: bool)
      requires Valid()
      modifies this, pingSamples
      ensures Valid()
      ensures accepted == ClientCheckPasses(m)
      ensures !accepted ==> unchanged(this) && unchanged(pingSamples)
      ensures accepted ==> && localToServerTimeOffset == latestNetworkTime - now
                           && ping == now - old(localPingTime)
                           && RingState() == Record(old(RingState()), ping)
                           && smoothedPing == Average(RingState())
      ensures localPingTime == old(localPingTime) && nextSyncTime == old(nextSyncTime)
    {
      accepted := ClientCheckPasses(m);
      if !accepted {
        return;
      }
      localToServerTimeOffset := latestNetworkTime - now;
      ping := now - localPingTime;
      RecordPingSample(ping);
      smoothedPing := AveragePingSamples();
    }

    /** The per-frame update: a due ping stamps its send time and schedules
        the next one; otherwise nothing changes. */
    method Process(m: Multiplayer, now: real) returns (pinged: bool)
      requires Valid()
      modifies this`localPingTime, this`nextSyncTime
      ensures Valid()
      ensures pinged == PingDue(m, now, old(nextSyncTime))
      ensures pinged ==> localPingTime == now && nextSyncTime == now + 1.0 / pingAndSyncFrequency
      ensures !pinged ==> localPingTime == old(localPingTime) && nextSyncTime == old(nextSyncTime)
    {
      if !IsConnected(m) {
        return false;
      }
      pinged := !m.isServer && now > nextSyncTime;
      if pinged {
        localPingTime := now;
        nextSyncTime := now + 1.0 / pingAndSyncFrequency;
      }
    }

    /** The server's own time on the server; on a client, local time plus the
        offset plus half the smoothed round trip (NaN if that is NaN). */
    function GetNetworkTime(m: Multiplayer, now: real): (t: FloatValue)
      reads this
      ensures m.hasPeer && m.isServer ==> t == Real(now)
      ensures !(m.hasPeer && m.isServer) ==> (t.NaN? <==> smoothedPing.NaN?)
      ensures !(m.hasPeer && m.isServer) && t.Real? ==>
                t.value - now - localToServerTimeOffset == smoothedPing.value / 2.0
    {
      if m.hasPeer && m.isServer then Real(now)
      else match GetPingSmoothed()
        case NaN => NaN
        case Real(smoothed) => Real(now + localToServerTimeOffset + smoothed / 2.0)
    }
  }

  /** One ping/pong exchange: a client whose clock trails the server's by
      `clockDelta` pings at `sendTime`, the server answers when the ping
      arrives `outDelay` later, and the pong takes `backDelay` back. From then
      on the client's network time is off the server's clock by half the
      difference of the two delays: exact when they are equal, and within
      10 ms exactly when they differ by at most 20 ms. */
  method PingExchange(frequency: real, client: Multiplayer, server: Multiplayer,
                      sendTime: real, outDelay: real, backDelay: real, clockDelta: real, laterTime: real)
    returns (estimate: FloatValue)
    requires frequency != 0.0
    requires IsConnected(client) && !client.isServer && server.isServer
    requires sendTime > 0.0 && outDelay + backDelay > 0.0
    ensures estimate.Real?
    ensures estimate.value - (laterTime + clockDelta) == (outDelay - backDelay) / 2.0
    ensures outDelay == backDelay ==> estimate == Real(laterTime + clockDelta)
    ensures (-0.01 <= estimate.value - (laterTime + clockDelta) <= 0.01) <==>
            (-0.02 <= outDelay - backDelay <= 0.02)
  {
    var node := new NetworkTime(frequency);
    node.Ready();
    var pinged := node.Process(client, sendTime);
    assert pinged;
    var reply := CommandPingReply(server, sendTime + outDelay + clockDelta);
    var receiveTime := sendTime + outDelay + backDelay;
    var accepted := node.RpcPong(client, reply.serverTime, receiveTime);
    assert accepted;
    ghost var ring := node.RingState();
    AverageOfSingleSample(ring, (node.nextSampleIndex + SampleCount - 1) % SampleCount);
    estimate := node.GetNetworkTime(client, laterTime);
  }
}
