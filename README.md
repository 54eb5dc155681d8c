# tp_charge: the SMAPI charge-threshold protocol in Dafny

`tp_charge.c` reads and writes the start and stop charge thresholds of a
ThinkPad battery through SMAPI, the vendor BIOS interface. Every SMAPI call puts
entry code 0x5380 in EAX, a sub-function in EBX and arguments in ECX, ESI and
EDI. It then writes AL to the SMAPI command port (`smapi_port1`, 0xB2) and to
port 0x4F, and reads the status in AH and results in ECX, ESI and EDI.

- `get_threshold` makes one query call. It maps status 0xA6 to `-EAGAIN` and
  any other nonzero status to `-EIO`. A clear validity bit (bit 8 of ECX) also
  gives `-EIO`. Otherwise it stores CL through `*val`.
- `set_threshold` repeats the query and keeps the ESI/EDI tokens it returns.
  It then makes the mutate call with the value in CL and the tokens echoed,
  sleeps 50 000 µs, and only then looks at the mutate call's status.

The project has three modules:

- `Smapi` (`smapi.dfy`) is the register ABI. A 32-bit register is a bounded
  integer (`Word`), and the C shifts and masks become division and remainder
  by powers of two. It holds the packing of query and mutate requests
  (`Encode`, with the inverse `ParseRequest` and round-trip lemmas), the status
  byte, the validity flag, the errno mapping, and `DecodeGet`, the decision of
  `get_threshold` on one response.
- `Protocol` (`protocol.dfy`) describes one operation as events added to a
  trace. An event is a `Call` (both ports, request, response) or a `Sleep`.
  The firmware is any function from the history so far and a request to a
  response, so every result holds for stateful firmware as well.
  - `GetSpec` and `SetSpec` give the outcome and events of one `get` and one
    `set`: `[Call(q)]`, or `[Call(q), Call(m), Sleep(50000)]`.
  - Lemmas state the properties of one `set`.
  - `WellBehaved` is the invariant of whole traces: each mutate call comes
    directly after a successful query for the same battery and threshold,
    carries that query's tokens, and is followed at once by a sleep of at
    least 50 ms. Every call uses the configured port and then port 0x4F.
- `TpCharge` (`tp_charge.dfy`) has the class `SmapiBios`. Its fields are the
  port, the firmware and the trace. `Transport` is the inline-asm port
  sequence and `Usleep` is `usleep`. `GetThreshold` and `SetThreshold` follow
  the C functions step by step. Each is proved to produce exactly
  `GetSpec`/`SetSpec` and to keep `WellBehaved`.

Where the header comment and the function bodies differ, the model follows
the function bodies:

- The header comment (tp_charge.c:25) puts the battery number, 1 or 2, in CH.
  The functions take a 0-based `bat` and send `bat + 1`; `main` passes 0
  (tp_charge.c:138).
- tp_charge.c:35 calls a stop value of 100 invalid, but neither function
  checks `val`: any byte, 0 and 100 included, goes out in CL.
- The code sends `(bat + 1) << 8` as the whole of ECX, so the battery code
  fills bits 8 to 31 and not only CH.

## Model

| member | source | states |
|---|---|---|
| `Smapi.Pack` | tp_charge.c:104-105 | `code` shifted left by 8 and or-ed with the byte `v` has `code` in bits 8 and up and `v` in the low byte |
| `Smapi.ParseRequest` | tp_charge.c:19-26 | a recognised request always has a battery code that fits above the low byte |
| `Smapi.ParseEncode` | tp_charge.c:19-31 | every query or mutate command is recovered exactly from its register packing |
| `Smapi.EncodeParse` | tp_charge.c:19-31 | every request that reads as a command is exactly that command's packing |
| `Smapi.QueryRequest` | tp_charge.c:56-58 | query request: EAX 0x5380; EBX 0x2116 when `start` is nonzero, else 0x211a; ECX has `bat + 1` above a zero low byte; ESI = EDI = 0 |
| `Smapi.MutateRequest` | tp_charge.c:103-105 | mutate request: EAX 0x5380; EBX 0x2117 when `start` is nonzero, else 0x211b; ECX has `bat + 1` above `val`; ESI and EDI are the given tokens |
| `Smapi.QueryRoundTrip` | tp_charge.c:84-85 | the query request reads back as a query for battery code `bat + 1` and the chosen threshold |
| `Smapi.MutateRoundTrip` | tp_charge.c:104-105 | the mutate request reads back as a mutate with battery code `bat + 1`, the value and both tokens |
| `Smapi.StatusErrno` | tp_charge.c:61-65 | status 0 gives 0, 0xA6 gives -EAGAIN, any other status gives -EIO, each in both directions |
| `Smapi.DecodeGet` | tp_charge.c:61-71 | a nonzero status decides the error and nothing is stored; a clear bit 0x0100 with status 0 gives -EIO and nothing stored; the result is 0 exactly when status is 0 and the bit is set, and then the stored value is `ecx & 0xFF` |
| `Smapi.StatusBeforeValidity` | tp_charge.c:61-68 | with a nonzero status the outcome does not depend on ECX, so the status is checked before the validity bit |
| `Smapi.DecodeGetExample` | tp_charge.c:28-28 | status 0 with ECX = 0x0105 returns 0 and stores 5 |
| `Protocol.GetSpec` | tp_charge.c:49-72 | defines the outcome and events of a get: exactly one call, the query request; 0 exactly when a value is stored; only 0, -EAGAIN or -EIO; the Get lemmas state the rest |
| `Protocol.SetSpec` | tp_charge.c:74-117 | defines the outcome and events of a set: one event (the query) or three, the last being the 50 000 µs sleep; success only with all three; only 0, -EAGAIN or -EIO; the Set lemmas state the rest |
| `Protocol.SetStartsWithGet` | tp_charge.c:79-95 | phase 1 of a set is the call a get makes; if that get fails, the set is that failure with that single event |
| `Protocol.SetStopsOnQueryFailure` | tp_charge.c:88-95 | a query with a bad status or a clear validity bit ends the set with the same error: one event, no mutate call, no sleep |
| `Protocol.SetRelaysTokens` | tp_charge.c:100-105 | after a good query the second event is the mutate call, with `bat + 1`, `val` and the query's ESI and EDI |
| `Protocol.SetAlwaysSettles` | tp_charge.c:106-114 | a mutate call in a set is always followed by `Sleep(50000)` as the last event, whatever its status |
| `Protocol.SetOutcome` | tp_charge.c:74-116 | a set returns 0 exactly when the query has status 0 and the valid bit and the mutate status is 0; -EAGAIN exactly when a phase that ran answered 0xA6; otherwise -EIO |
| `Protocol.SetPassesValueThrough` | tp_charge.c:35-37 | `val` is not validated: any byte goes out in CL, and the query, the number of events and the sleep do not depend on it |
| `Protocol.SettledAppend` | tp_charge.c:32-33 | joining two traces in which each mutate is followed by a 50 ms sleep gives such a trace |
| `Protocol.RelayedAppend` | tp_charge.c:30-31 | joining two traces in which each mutate echoes the tokens of the query just before it gives such a trace |
| `Protocol.OnPortsAppend` | tp_charge.c:46-47 | joining two traces whose calls all use the command port and then 0x4F gives such a trace |
| `Protocol.WellBehavedAppend` | tp_charge.c:30-33 | the whole trace invariant is kept when traces are joined |
| `Protocol.GetKeepsInvariant` | tp_charge.c:49-72 | a get keeps the trace invariant |
| `Protocol.SetKeepsInvariant` | tp_charge.c:74-117 | a set keeps the trace invariant whichever phase it stops in |
| `Protocol.SettledSuffix` | tp_charge.c:32-33 | every suffix of a settled trace is settled |
| `Protocol.SettleTimeBound` | tp_charge.c:108-108 | a settled trace requests sleeps totalling at least 50 000 µs for each mutate call in it |
| `Protocol.GetExample` | tp_charge.c:67-71 | a get of battery 0's start threshold answered with status 0 and ECX = 0x0105 returns 0 and stores 5 |
| `Protocol.SetExample` | tp_charge.c:100-108 | setting the stop threshold with `bat = 1` and value 0 sends ECX = 0x0200 with the query's tokens, then sleeps 50 000 µs |
| `TpCharge.SmapiBios.constructor` | tp_charge.c:46-47 | a fresh interface on the given port and firmware has an empty trace, which satisfies the invariant |
| `TpCharge.SmapiBios.Transport` | tp_charge.c:53-59 | one call: the response is the firmware's answer to the history and the request, and the call is appended to the trace |
| `TpCharge.SmapiBios.Usleep` | tp_charge.c:108-108 | appends a sleep of the given length to the trace |
| `TpCharge.SmapiBios.GetThreshold` | tp_charge.c:49-72 | the return code, the value stored through `*val` (if any) and the new trace are those of `GetSpec`, and the trace invariant is kept |
| `TpCharge.SmapiBios.SetThreshold` | tp_charge.c:74-117 | the return code and the new trace are those of `SetSpec`, and the trace invariant is kept |

## Left out

- The `out` instructions and register bindings of the three inline-asm blocks are modelled only as `Transport`, one call of an arbitrary firmware function.
- `usleep` is recorded as a `Sleep` event. No real time passes.
- The code ignores `usleep`'s return value (tp_charge.c:108), so a signal can end the settle delay early; the model records only the requested length.
- The debug `printf` of ESI, EDI and ECX in `set_threshold` has no effect on the protocol and is not modelled.
- `main` is not part of this model. That covers `ioperm`, the argument dispatch, the `atoi` conversion with its `uint8_t` truncation, and the `perror`/`fprintf` output, and so also the `ioperm` failure that `main` reports before any SMAPI call.
- The header comment describes finding the port through CMOS bytes 0x7C-0x7F. The code does not do this; the port is a constructor parameter, with 0xB2 as `Protocol.DefaultPort`.
- Concurrency is left out: the code has no locking. Other callers are not in the trace. Because the firmware is an arbitrary function, their effect on its answers is covered, but `Relayed` and `Settled` describe only this program's own calls; a call by another process between the query and the mutate, or within the 50 ms, is not ruled out.
- What the firmware does with a value (stop 0 read as 100%, start 0 read as 98%, stop 100 rejected) is not modelled, because the code passes bytes through. So a get, then a set, then a get returning the set value is not proved: that depends entirely on the firmware.
- The ECX, ESI and EDI outputs of the mutate call are ignored, as the C code ignores them. Only its EAX (the status) is used.
- `TpCharge.SmapiBios.GetThreshold`: requires `0 <= bat + 1 <= 0x7FFFFF` (`Smapi.BatteryEncodable`). Outside that range the C expression `(bat + 1) << 8` on an `int` is undefined behaviour, so the model gives those inputs no meaning.
- `TpCharge.SmapiBios.SetThreshold`: has the same battery-range requirement, for the same reason.
- The errno values are Linux's (EAGAIN = 11, EIO = 5), and the functions return them negated.
