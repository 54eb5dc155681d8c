/**
 * The threshold protocol of tp_charge.c stated over an event trace: every
 * SMAPI call (the `out smapi_port1, al; out 0x4F, al` sequence with its
 * input and output registers) and every `usleep` is one event. The firmware
 * is an arbitrary function of the whole history and the request, so the
 * properties below hold for every firmware, stateful or not.
 */
module Protocol {
  import opened Smapi

  /** An x86 I/O port number. */
  type Port = p: int | 0 <= p < 0x1_0000

  /** `smapi_port1`: the SMAPI command port on an X200s. */
  const DefaultPort: Port := 0xB2

  /** `smapi_port2`: the fixed second port of the SMAPI call sequence. */
  const SecondaryPort: Port := 0x4F

  /** The pause after a "set" before the next SMAPI call, in microseconds. */
  const SettleMicros: nat := 50000

  datatype Event =
    | Call(port1: Port, port2: Port, req: Request, resp: Response)
    | Sleep(usec: nat)

  /** How the firmware answers a request, given everything that happened before. */
  type Firmware = (seq<Event>, Request) -> Response

  /** One run of `get_threshold`: its return code, what it stored in `*val`, its events. */
  datatype GetRun = GetRun(err: int, val: Option<Byte>, events: seq<Event>)

  /** One run of `set_threshold`: its return code and its events. */
  datatype SetRun = SetRun(err: int, events: seq<Event>)

  /** What `get_threshold(bat, start, &val)` does after history `h`. */
  function GetSpec(fw: Firmware, h: seq<Event>, port: Port, bat: int, start: int): (r: GetRun)
    requires BatteryEncodable(bat)
    ensures |r.events| == 1 && r.events[0].Call? && r.events[0].req == QueryRequest(bat, start)
    ensures r.err == 0 <==> r.val.Some?
    ensures r.err == 0 || r.err == -EAGAIN || r.err == -EIO
  {
    var q := QueryRequest(bat, start);
    var o := DecodeGet(fw(h, q));
    GetRun(o.err, o.val, [Call(port, SecondaryPort, q, fw(h, q))])
  }

  /**
   * What `set_threshold(bat, start, val)` does after history `h`: the same
   * query as a "get", and only if it succeeds, the mutating call carrying the
   * query's ESI and EDI, followed by the settle delay.
   */
  function SetSpec(fw: Firmware, h: seq<Event>, port: Port, bat: int, start: int, val: Byte): (r: SetRun)
    requires BatteryEncodable(bat)
    ensures |r.events| == 1 || |r.events| == 3
    ensures r.events[0].Call? && r.events[0].req == QueryRequest(bat, start)
    ensures |r.events| == 3 ==> r.events[2] == Sleep(SettleMicros)
    ensures r.err == 0 ==> |r.events| == 3
    ensures r.err == 0 || r.err == -EAGAIN || r.err == -EIO
  {
    var q := QueryRequest(bat, start);
    var qr := fw(h, q);
    var first := Call(port, SecondaryPort, q, qr);
    var checked := DecodeGet(qr).err;
    if checked != 0 then SetRun(checked, [first])
    else
      var m := MutateRequest(bat, start, val, qr.esi, qr.edi);
      var mr := fw(h + [first], m);
      SetRun(StatusErrno(Status(mr.eax)), [first, Call(port, SecondaryPort, m, mr), Sleep(SettleMicros)])
  }

  // ---------------------------------------------------------------------
  // Properties of one "set"

  /** Phase 1 of a "set" is exactly a "get": same event, and its failure is the set's failure. */
  lemma SetStartsWithGet(fw: Firmware, h: seq<Event>, port: Port, bat: int, start: int, val: Byte)
    requires BatteryEncodable(bat)
    ensures SetSpec(fw, h, port, bat, start, val).events[..1] == GetSpec(fw, h, port, bat, start).events
    ensures GetSpec(fw, h, port, bat, start).err != 0 ==>
            SetSpec(fw, h, port, bat, start, val) == SetRun(GetSpec(fw, h, port, bat, start).err,
                                                            GetSpec(fw, h, port, bat, start).events)
  {
  }

  /** A failed query (bad status or clear validity bit) ends the "set": no mutate call, no sleep. */
  lemma SetStopsOnQueryFailure(fw: Firmware, h: seq<Event>, port: Port, bat: int, start: int, val: Byte)
    requires BatteryEncodable(bat)
    requires DecodeGet(fw(h, QueryRequest(bat, start))).err != 0
    ensures var run := SetSpec(fw, h, port, bat, start, val);
            |run.events| == 1 && !IsMutate(run.events[0]) && !run.events[0].Sleep?
            && run.err == DecodeGet(fw(h, QueryRequest(bat, start))).err
  {
    QueryRoundTrip(bat, start);
  }

  /** After a good query, the mutate call has the set sub-function, bat + 1, val, and the query's tokens. */
  lemma SetRelaysTokens(fw: Firmware, h: seq<Event>, port: Port, bat: int, start: int, val: Byte)
    requires BatteryEncodable(bat)
    requires DecodeGet(fw(h, QueryRequest(bat, start))).err == 0
    ensures var qr := fw(h, QueryRequest(bat, start));
            var run := SetSpec(fw, h, port, bat, start, val);
            |run.events| == 3 && run.events[1].Call?
            && run.events[1].req == MutateRequest(bat, start, val, qr.esi, qr.edi)
            && ParseRequest(run.events[1].req) == Some(Mutate(bat + 1, KindOf(start), val, qr.esi, qr.edi))
  {
    MutateRoundTrip(bat, start, val, fw(h, QueryRequest(bat, start)).esi, fw(h, QueryRequest(bat, start)).edi);
  }

  /** Once the mutate call is made, the 50 ms sleep follows it whatever its status. */
  lemma SetAlwaysSettles(fw: Firmware, h: seq<Event>, port: Port, bat: int, start: int, val: Byte)
    requires BatteryEncodable(bat)
    ensures var run := SetSpec(fw, h, port, bat, start, val);
            forall i | 0 <= i < |run.events| && IsMutate(run.events[i]) ::
              i + 1 == |run.events| - 1 && run.events[i + 1] == Sleep(SettleMicros)
  {
    QueryRoundTrip(bat, start);
  }

  /**
   * The return code of a "set": 0 exactly when the query has status 0 and the
   * validity bit and the mutate call has status 0; -EAGAIN exactly when
   * either phase that ran answered 0xA6; -EIO otherwise.
   */
  lemma SetOutcome(fw: Firmware, h: seq<Event>, port: Port, bat: int, start: int, val: Byte)
    requires BatteryEncodable(bat)
    ensures var qr := fw(h, QueryRequest(bat, start));
            var run := SetSpec(fw, h, port, bat, start, val);
            var queryOk := Status(qr.eax) == 0 && HasValidFlag(qr.ecx);
            var mutateStatus := if |run.events| == 3 && run.events[1].Call?
                                then Status(run.events[1].resp.eax) else 0;
            && (run.err == 0 <==> queryOk && mutateStatus == 0)
            && (run.err == -EAGAIN <==>
                  (Status(qr.eax) == TryAgainStatus || (queryOk && mutateStatus == TryAgainStatus)))
            && (run.err == 0 || run.err == -EAGAIN || run.err == -EIO)
  {
  }

  /**
   * `val` is not checked: 0, 100 or any other byte goes out in CL of the
   * mutate call, and the query and the shape of the run do not depend on it.
   */
  lemma SetPassesValueThrough(fw: Firmware, h: seq<Event>, port: Port, bat: int, start: int, v1: Byte, v2: Byte)
    requires BatteryEncodable(bat)
    ensures var r1 := SetSpec(fw, h, port, bat, start, v1);
            var r2 := SetSpec(fw, h, port, bat, start, v2);
            && |r1.events| == |r2.events|
            && r1.events[0] == r2.events[0]
            && (|r1.events| == 3 ==>
                  && r1.events[1].Call? && LowByte(r1.events[1].req.ecx) == v1
                  && r2.events[1].Call? && LowByte(r2.events[1].req.ecx) == v2
                  && r1.events[1].req == r2.events[1].req.(ecx := r1.events[1].req.ecx)
                  && r1.events[2] == r2.events[2])
  {
  }

  // ---------------------------------------------------------------------
  // Properties of whole traces

  predicate IsMutate(e: Event) {
    e.Call? && ParseRequest(e.req).Some? && ParseRequest(e.req).value.Mutate?
  }

  /**
   * `m` is a mutate call that follows a successful query `q` for the same
   * battery and threshold and carries the ESI and EDI that `q` returned.
   */
  predicate Relays(q: Event, m: Event)
    requires IsMutate(m)
  {
    var c := ParseRequest(m.req).value;
    && q.Call?
    && ParseRequest(q.req) == Some(Query(c.code, c.kind))
    && DecodeGet(q.resp).err == 0
    && c.esi == q.resp.esi && c.edi == q.resp.edi
  }

  /** Every mutate call is immediately followed by a sleep of at least 50 ms. */
  predicate Settled(t: seq<Event>) {
    forall i | 0 <= i < |t| && IsMutate(t[i]) ::
      i + 1 < |t| && t[i + 1].Sleep? && t[i + 1].usec >= SettleMicros
  }

  /** Every mutate call directly follows the query that issued its tokens. */
  predicate Relayed(t: seq<Event>) {
    forall i | 0 <= i < |t| && IsMutate(t[i]) :: 0 < i && Relays(t[i - 1], t[i])
  }

  /** Every call goes to the command port `port` and then to the secondary port. */
  predicate OnPorts(t: seq<Event>, port: Port) {
    forall i | 0 <= i < |t| && t[i].Call? :: t[i].port1 == port && t[i].port2 == SecondaryPort
  }

  /** The invariant of every trace the protocol produces. */
  predicate WellBehaved(t: seq<Event>, port: Port) {
    Settled(t) && Relayed(t) && OnPorts(t, port)
  }

  lemma {:induction false} SettledAppend(a: seq<Event>, b: seq<Event>)
    requires Settled(a) && Settled(b)
    ensures Settled(a + b)
  {
    var t := a + b;
    forall i | 0 <= i < |t| && IsMutate(t[i])
      ensures i + 1 < |t| && t[i + 1].Sleep? && t[i + 1].usec >= SettleMicros
    {
      if i < |a| {
        assert t[i] == a[i] && t[i + 1] == a[i + 1];
      } else {
        assert t[i] == b[i - |a|] && t[i + 1] == b[i + 1 - |a|];
      }
    }
  }

  lemma {:induction false} RelayedAppend(a: seq<Event>, b: seq<Event>)
    requires Relayed(a) && Relayed(b)
    ensures Relayed(a + b)
  {
    var t := a + b;
    forall i | 0 <= i < |t| && IsMutate(t[i]) ensures 0 < i && Relays(t[i - 1], t[i]) {
      if i < |a| {
        assert t[i] == a[i] && t[i - 1] == a[i - 1];
      } else {
        assert t[i] == b[i - |a|] && t[i - 1] == b[i - 1 - |a|];
      }
    }
  }

  lemma {:induction false} OnPortsAppend(a: seq<Event>, b: seq<Event>, port: Port)
    requires OnPorts(a, port) && OnPorts(b, port)
    ensures OnPorts(a + b, port)
  {
    var t := a + b;
    forall i | 0 <= i < |t| && t[i].Call? ensures t[i].port1 == port && t[i].port2 == SecondaryPort {
      if i < |a| {
        assert t[i] == a[i];
      } else {
        assert t[i] == b[i - |a|];
      }
    }
  }

  lemma WellBehavedAppend(a: seq<Event>, b: seq<Event>, port: Port)
    requires WellBehaved(a, port) && WellBehaved(b, port)
    ensures WellBehaved(a + b, port)
  {
    SettledAppend(a, b);
    RelayedAppend(a, b);
    OnPortsAppend(a, b, port);
  }

  /** A "get" adds one query call and keeps the invariant. */
  lemma GetKeepsInvariant(fw: Firmware, h: seq<Event>, port: Port, bat: int, start: int)
    requires BatteryEncodable(bat) && WellBehaved(h, port)
    ensures WellBehaved(h + GetSpec(fw, h, port, bat, start).events, port)
  {
    QueryRoundTrip(bat, start);
    WellBehavedAppend(h, GetSpec(fw, h, port, bat, start).events, port);
  }

  /** A "set" keeps the invariant, whichever phase it stops in. */
  lemma SetKeepsInvariant(fw: Firmware, h: seq<Event>, port: Port, bat: int, start: int, val: Byte)
    requires BatteryEncodable(bat) && WellBehaved(h, port)
    ensures WellBehaved(h + SetSpec(fw, h, port, bat, start, val).events, port)
  {
    var q := QueryRequest(bat, start);
    var qr := fw(h, q);
    QueryRoundTrip(bat, start);
    MutateRoundTrip(bat, start, val, qr.esi, qr.edi);
    var events := SetSpec(fw, h, port, bat, start, val).events;
    assert WellBehaved(events, port);
    WellBehavedAppend(h, events, port);
  }

  /** The number of mutate calls in a trace. */
  function MutateCount(t: seq<Event>): nat {
    if t == [] then 0 else (if IsMutate(t[0]) then 1 else 0) + MutateCount(t[1..])
  }

  /** The total time a trace spends sleeping, in microseconds. */
  function SleepTime(t: seq<Event>): nat {
    if t == [] then 0 else (if t[0].Sleep? then t[0].usec else 0) + SleepTime(t[1..])
  }

  lemma SettledSuffix(t: seq<Event>, k: nat)
    requires Settled(t) && k <= |t|
    ensures Settled(t[k..])
  {
    var s := t[k..];
    forall i | 0 <= i < |s| && IsMutate(s[i])
      ensures i + 1 < |s| && s[i + 1].Sleep? && s[i + 1].usec >= SettleMicros
    {
      assert s[i] == t[k + i];
    }
  }

  /** A settled trace sleeps at least 50 ms for every "set" it contains. */
  lemma {:induction false} SettleTimeBound(t: seq<Event>)
    requires Settled(t)
    ensures SleepTime(t) >= SettleMicros * MutateCount(t)
  {
    if t == [] {
    } else if IsMutate(t[0]) {
      assert t[1].Sleep? && !IsMutate(t[1]);
      SettledSuffix(t, 2);
      SettleTimeBound(t[2..]);
      assert t[1..][1..] == t[2..];
    } else {
      SettledSuffix(t, 1);
      SettleTimeBound(t[1..]);
    }
  }

  // ---------------------------------------------------------------------
  // Worked examples

  /** get_threshold(0, 1) answered with status 0 and ECX = 0x0105 returns 0 and stores 5. */
  lemma GetExample(h: seq<Event>, port: Port, esi: Word, edi: Word)
    ensures var fw: Firmware := (_, _) => Response(0, 0x0105, esi, edi);
            var run := GetSpec(fw, h, port, 0, 1);
            run.err == 0 && run.val == Some(5)
  {
  }

  /** Setting battery 2's stop threshold (bat = 1) to 0 sends ECX = 0x0200 with the query's tokens. */
  lemma SetExample(h: seq<Event>, port: Port, s: Word, d: Word)
    ensures var fw: Firmware := (_, r: Request) =>
              if r.ebx == GetStopSelector then Response(0, 0x0100, s, d) else Response(0, 0, 0, 0);
            var run := SetSpec(fw, h, port, 1, 0, 0);
            run.err == 0
            && run.events[1] == Call(port, SecondaryPort, Request(0x5380, 0x211b, 0x0200, s, d),
                                     Response(0, 0, 0, 0))
            && run.events[2] == Sleep(50000)
  {
  }
}
