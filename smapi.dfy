/**
 * The register-level ABI of the ThinkPad SMAPI BIOS call used for battery
 * charge thresholds: how a request is packed into EAX, EBX, ECX, ESI and EDI,
 * how a response is read back out of EAX and ECX, and how the firmware's
 * status byte is mapped onto the errno-style return codes of tp_charge.c.
 *
 * A register holds a 32-bit word, modelled as the unsigned integer it
 * spells. The shifts and masks of the C code are written as the arithmetic
 * they amount to on such a word: `w >> 8` is `w / 0x100`, `w & 0xFF` is
 * `w % 0x100`, `w & 0x0100` is bit `w / 0x100 % 2`, and `(c << 8) | v` with
 * `v` a byte is `c * 0x100 + v`.
 */
module Smapi {

  datatype Option<T> = None | Some(value: T)

  /** The contents of a 32-bit register. */
  type Word = w: int | 0 <= w < 0x1_0000_0000

  /** The contents of an 8-bit register (CL, AH) or of a C `uint8_t`. */
  type Byte = b: int | 0 <= b < 0x100

  /** Entry code of every SMAPI call, placed in EAX. */
  const FunctionSelector: Word := 0x5380

  /** Sub-function codes, placed in EBX. */
  const GetStartSelector: Word := 0x2116
  const SetStartSelector: Word := 0x2117
  const GetStopSelector: Word := 0x211a
  const SetStopSelector: Word := 0x211b

  /** The status (AH) the firmware returns for "try again". */
  const TryAgainStatus: Byte := 0xA6

  /** errno values (Linux) of the two errors the protocol returns, negated. */
  const EAGAIN: int := 11
  const EIO: int := 5

  /**
   * `(bat + 1) << 8` is evaluated on a C `int`; the C standard defines it only
   * when `bat + 1` is not negative and the shifted value still fits in 31 bits.
   */
  const MaxBatteryCode: int := 0x7F_FFFF

  predicate BatteryEncodable(bat: int) {
    0 <= bat + 1 <= MaxBatteryCode
  }

  /** Which of the two thresholds a call is about. */
  datatype Kind = StartThreshold | StopThreshold

  /** The C code tests `start` for truth: any nonzero value selects the start threshold. */
  function KindOf(start: int): Kind {
    if start != 0 then StartThreshold else StopThreshold
  }

  function QuerySelector(k: Kind): Word {
    match k
    case StartThreshold => GetStartSelector
    case StopThreshold => GetStopSelector
  }

  function MutateSelector(k: Kind): Word {
    match k
    case StartThreshold => SetStartSelector
    case StopThreshold => SetStopSelector
  }

  /** The input registers of one SMAPI call. */
  datatype Request = Request(eax: Word, ebx: Word, ecx: Word, esi: Word, edi: Word)

  /** The output registers of one SMAPI call. */
  datatype Response = Response(eax: Word, ecx: Word, esi: Word, edi: Word)

  /** What a request asks the firmware to do; `code` is the 1-based battery number in CH and up. */
  datatype Command =
    | Query(code: int, kind: Kind)
    | Mutate(code: int, kind: Kind, value: Byte, esi: Word, edi: Word)

  /** The upper 24 bits of a register, `w >> 8`. */
  function HighBits(w: Word): int {
    w / 0x100
  }

  /** The low byte of a register, `w & 0xFF`. */
  function LowByte(w: Word): Byte {
    w % 0x100
  }

  /** `(code << 8) | v`: a code in bits 8 to 31 and a byte in bits 0 to 7. */
  function Pack(code: int, v: Byte): (w: Word)
    requires 0 <= code < 0x100_0000
    ensures HighBits(w) == code && LowByte(w) == v
  {
    code * 0x100 + v
  }

  predicate CodeFits(c: Command) {
    0 <= c.code < 0x100_0000
  }

  /**
   * The register packing shared by every call: the entry code in EAX, the
   * sub-function in EBX, the battery code shifted into CH and above, the
   * value (zero for a query) in CL, and the two tokens (zero for a query).
   */
  function Encode(c: Command): Request
    requires CodeFits(c)
  {
    match c
    case Query(code, k) =>
      Request(FunctionSelector, QuerySelector(k), Pack(code, 0), 0, 0)
    case Mutate(code, k, v, s, d) =>
      Request(FunctionSelector, MutateSelector(k), Pack(code, v), s, d)
  }

  /** Reads a request back as a command; None for registers Encode never produces. */
  function ParseRequest(r: Request): (c: Option<Command>)
    ensures c.Some? ==> CodeFits(c.value)
  {
    if r.eax != FunctionSelector then None
    else
      var code := HighBits(r.ecx);
      if (r.ebx == GetStartSelector || r.ebx == GetStopSelector)
         && LowByte(r.ecx) == 0 && r.esi == 0 && r.edi == 0 then
        Some(Query(code, if r.ebx == GetStartSelector then StartThreshold else StopThreshold))
      else if r.ebx == SetStartSelector || r.ebx == SetStopSelector then
        Some(Mutate(code, if r.ebx == SetStartSelector then StartThreshold else StopThreshold,
                    LowByte(r.ecx), r.esi, r.edi))
      else None
  }

  /** Every command whose battery code fits in bits 8 to 31 survives a round trip. */
  lemma ParseEncode(c: Command)
    requires CodeFits(c)
    ensures ParseRequest(Encode(c)) == Some(c)
  {
  }

  /** Every request that parses is exactly the encoding of what it parses to. */
  lemma EncodeParse(r: Request)
    requires ParseRequest(r).Some?
    ensures Encode(ParseRequest(r).value) == r
  {
  }

  /** The request of a "get" call, standalone or as phase 1 of a "set". */
  function QueryRequest(bat: int, start: int): (r: Request)
    requires BatteryEncodable(bat)
    ensures r.eax == FunctionSelector
    ensures r.ebx == (if start != 0 then GetStartSelector else GetStopSelector)
    ensures HighBits(r.ecx) == bat + 1 && LowByte(r.ecx) == 0
    ensures r.esi == 0 && r.edi == 0
  {
    Encode(Query(bat + 1, KindOf(start)))
  }

  /** The request of the mutating call of a "set": the value in CL, the tokens echoed. */
  function MutateRequest(bat: int, start: int, val: Byte, esi: Word, edi: Word): (r: Request)
    requires BatteryEncodable(bat)
    ensures r.eax == FunctionSelector
    ensures r.ebx == (if start != 0 then SetStartSelector else SetStopSelector)
    ensures HighBits(r.ecx) == bat + 1 && LowByte(r.ecx) == val
    ensures r.esi == esi && r.edi == edi
  {
    Encode(Mutate(bat + 1, KindOf(start), val, esi, edi))
  }

  lemma QueryRoundTrip(bat: int, start: int)
    requires BatteryEncodable(bat)
    ensures ParseRequest(QueryRequest(bat, start)) == Some(Query(bat + 1, KindOf(start)))
  {
    ParseEncode(Query(bat + 1, KindOf(start)));
  }

  lemma MutateRoundTrip(bat: int, start: int, val: Byte, esi: Word, edi: Word)
    requires BatteryEncodable(bat)
    ensures ParseRequest(MutateRequest(bat, start, val, esi, edi))
            == Some(Mutate(bat + 1, KindOf(start), val, esi, edi))
  {
    ParseEncode(Mutate(bat + 1, KindOf(start), val, esi, edi));
  }

  /** The status byte AH, `(eax >> 8) & 0xFF`. */
  function Status(eax: Word): Byte {
    eax / 0x100 % 0x100
  }

  /** The return code for a status byte: 0 only for 0, -EAGAIN for 0xA6, -EIO otherwise. */
  function StatusErrno(s: Byte): (e: int)
    ensures e == 0 <==> s == 0
    ensures e == -EAGAIN <==> s == TryAgainStatus
    ensures e == -EIO <==> s != 0 && s != TryAgainStatus
  {
    if s == TryAgainStatus then -EAGAIN
    else if s != 0 then -EIO
    else 0
  }

  /** `(ecx & 0x0100) == 0x0100`: bit 8, the low bit of CH. */
  predicate HasValidFlag(ecx: Word) {
    ecx / 0x100 % 2 == 1
  }

  /** The C function's return code together with what it wrote through `*val` (None: nothing). */
  datatype GetOutcome = GetOutcome(err: int, val: Option<Byte>)

  /** How a "get" response is judged: status first, then the validity flag, then CL. */
  function DecodeGet(resp: Response): (o: GetOutcome)
    ensures Status(resp.eax) != 0 ==> o == GetOutcome(StatusErrno(Status(resp.eax)), None)
    ensures Status(resp.eax) == 0 && !HasValidFlag(resp.ecx) ==> o == GetOutcome(-EIO, None)
    ensures o.err == 0 <==> Status(resp.eax) == 0 && HasValidFlag(resp.ecx)
    ensures o.err == 0 ==> o.val == Some(LowByte(resp.ecx))
    ensures o.err != 0 ==> o.val == None
  {
    var errcode := Status(resp.eax);
    if errcode == TryAgainStatus then GetOutcome(-EAGAIN, None)
    else if errcode != 0 then GetOutcome(-EIO, None)
    else if !HasValidFlag(resp.ecx) then GetOutcome(-EIO, None)
    else GetOutcome(0, Some(LowByte(resp.ecx)))
  }

  /** A nonzero status decides the outcome whatever ECX holds. */
  lemma StatusBeforeValidity(resp: Response, ecx: Word)
    requires Status(resp.eax) != 0
    ensures DecodeGet(resp.(ecx := ecx)) == DecodeGet(resp)
  {
  }

  /** Status 0 and ECX = 0x0105: the flag is set and the threshold is 5. */
  lemma DecodeGetExample(esi: Word, edi: Word)
    ensures DecodeGet(Response(0, 0x0105, esi, edi)) == GetOutcome(0, Some(5))
  {
  }
}
