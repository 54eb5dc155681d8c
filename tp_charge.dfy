/**
 * `get_threshold` and `set_threshold` of tp_charge.c as methods that run
 * against one SMAPI interface. The interface object holds the configured
 * command port (`smapi_port1`), the firmware that answers the calls, and the
 * trace of everything the program has done to it so far; the inline-asm port
 * sequences become calls of Transport and `usleep` becomes Usleep.
 */
module TpCharge {
  import opened Smapi
  import opened Protocol

  class SmapiBios {
    /** `smapi_port1`, the command port of the `out` sequence. */
    const port: Port
    /** The BIOS side of every call; it sees the whole history. */
    const firmware: Firmware
    /** Every SMAPI call and every sleep, in order. */
    var trace: seq<Event>

    ghost predicate Valid()
      reads this
    {
      WellBehaved(trace, port)
    }

    constructor (port: Port, firmware: Firmware)
      ensures this.port == port && this.firmware == firmware
      ensures trace == [] && Valid()
    {
      this.port := port;
      this.firmware := firmware;
      trace := [];
    }

    /**
     * One SMAPI call: load the request registers, `out` to the command port,
     * `out` to the secondary port, and read the response registers back.
     */
    method Transport(req: Request) returns (resp: Response)
      modifies this
      ensures resp == firmware(old(trace), req)
      ensures trace == old(trace) + [Call(port, SecondaryPort, req, resp)]
    {
      resp := firmware(trace, req);
      trace := trace + [Call(port, SecondaryPort, req, resp)];
    }

    method Usleep(usec: nat)
      modifies this
      ensures trace == old(trace) + [Sleep(usec)]
    {
      trace := trace + [Sleep(usec)];
    }

    /** `get_threshold(bat, start, &val)`; `val` is None when `*val` is left unwritten. */
    method GetThreshold(bat: int, start: int) returns (err: int, val: Option<Byte>)
      requires Valid() && BatteryEncodable(bat)
      modifies this
      ensures Valid()
      ensures var run := GetSpec(firmware, old(trace), port, bat, start);
              err == run.err && val == run.val && trace == old(trace) + run.events
    {
      GetKeepsInvariant(firmware, trace, port, bat, start);
      var resp := Transport(QueryRequest(bat, start));
      var errcode := Status(resp.eax);
      if errcode == TryAgainStatus {
        return -EAGAIN, None;
      } else if errcode != 0 {
        return -EIO, None;
      }
      if !HasValidFlag(resp.ecx) {
        return -EIO, None;
      }
      return 0, Some(LowByte(resp.ecx));
    }

    /** `set_threshold(bat, start, val)`: query, then mutate with the query's ESI and EDI, then sleep. */
    method SetThreshold(bat: int, start: int, val: Byte) returns (err: int)
      requires Valid() && BatteryEncodable(bat)
      modifies this
      ensures Valid()
      ensures var run := SetSpec(firmware, old(trace), port, bat, start, val);
              err == run.err && trace == old(trace) + run.events
    {
      SetKeepsInvariant(firmware, trace, port, bat, start, val);
      // Phase 1: the query whose ESI and EDI the mutate must carry back.
      var q := Transport(QueryRequest(bat, start));
      var errcode := Status(q.eax);
      if errcode == TryAgainStatus {
        return -EAGAIN;
      } else if errcode != 0 {
        return -EIO;
      }
      if !HasValidFlag(q.ecx) {
        return -EIO;
      }
      // Phase 2: the mutate, then the settle delay before anything else.
      var m := Transport(MutateRequest(bat, start, val, q.esi, q.edi));
      Usleep(SettleMicros);
      errcode := Status(m.eax);
      if errcode == TryAgainStatus {
        return -EAGAIN;
      } else if errcode != 0 {
        return -EIO;
      }
      return 0;
    }
  }
}
