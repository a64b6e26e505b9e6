/** The bounded reader of Windows minidumps: header, stream directory, threads, modules, exception. */
module Minidump {
  import opened Basics
  import opened Text
  import opened Evidence
  import Utf8

  type Bytes = seq<Utf8.byte>

  /** A reading that may find the input unsupported or corrupt. */
  datatype Parsed<+T> = Ok(value: T) | Unsupported | Corrupt
  {
    predicate IsFailure() {
      !Ok?
    }

    function PropagateFailure<U>(): Parsed<U>
      requires !Ok?
    {
      if Unsupported? then Unsupported else Corrupt
    }

    function Extract(): T
      requires Ok?
    {
      value
    }
  }

  /** The lossy text decoders of the standard library and the calendar of the date library: any functions. */
  datatype Decoders = Decoders(utf16: seq<u16> -> string, utf8: Bytes -> string, date: u32 -> Option<string>)

  const MDMP_SIGNATURE := 0x504d_444d
  const MAX_DUMP_BYTES: nat := 256 * 1024 * 1024
  const MAX_STREAMS: nat := 4096
  const MAX_THREADS: nat := 65_536
  const MAX_MODULES: nat := 4096
  const STREAM_THREAD_LIST := 3
  const STREAM_MODULE_LIST := 4
  const STREAM_EXCEPTION := 6
  const STREAM_SYSTEM_INFO := 7
  const STREAM_THREAD_EX_LIST := 8
  const STREAM_MISC_INFO := 15
  const ENTRY_SIZE: nat := 12
  const MODULE_SIZE: nat := 108
  const ACCESS_VIOLATION := 0xc000_0005

  // ----- reading numbers and ranges -----

  function U16At(b: Bytes, i: nat): u16
    requires i + 2 <= |b|
  {
    var low: int, high: int := b[i], b[i + 1];
    low + 0x100 * high
  }

  function U32At(b: Bytes, i: nat): u32
    requires i + 4 <= |b|
  {
    U16At(b, i) + 0x1_0000 * U16At(b, i + 2)
  }

  function U64At(b: Bytes, i: nat): u64
    requires i + 8 <= |b|
  {
    U32At(b, i) + 0x1_0000_0000 * U32At(b, i + 4)
  }

  datatype Location = Location(size: u32, rva: u32)

  /** The bytes of a location, when all of them exist. */
  function RangeOf(b: Bytes, l: Location): (r: Parsed<Bytes>)
    ensures !r.Unsupported?
    ensures r.Ok? ==> l.rva + l.size <= |b| && r.value == b[l.rva..l.rva + l.size]
  {
    if l.rva + l.size <= |b| then Ok(b[l.rva..l.rva + l.size]) else Corrupt
  }

  /** Eight lower-case digits after `0x`. */
  function FormatHex32(n: u32): string {
    "0x" + Padded(n, 8)
  }

  function UpperChar(c: char): char {
    if 'a' <= c <= 'z' then (c as int - 32) as char else c
  }

  function Upper(s: string): (r: string)
    ensures |r| == |s|
    ensures forall i | 0 <= i < |s| :: r[i] == UpperChar(s[i])
  {
    seq(|s|, i requires 0 <= i < |s| => UpperChar(s[i]))
  }

  // ----- header and directory -----

  datatype Header = Header(streams: u32, directory: u32, timestamp: u32, flags: u64)

  function HeaderOf(b: Bytes): (r: Parsed<Header>)
    ensures r.Ok? ==> 0 < r.value.streams <= MAX_STREAMS
  {
    if |b| < 4 || U32At(b, 0) != MDMP_SIGNATURE then Unsupported
    else if |b| < 32 then Corrupt
    else if U32At(b, 8) == 0 || U32At(b, 8) > MAX_STREAMS then Corrupt
    else Ok(Header(U32At(b, 8), U32At(b, 12), U32At(b, 20), U64At(b, 24)))
  }

  datatype Entry = Entry(streamType: u32, location: Location)

  function EntryAt(b: Bytes, at: nat): Parsed<Entry>
    requires at + ENTRY_SIZE <= |b|
  {
    var l := Location(U32At(b, at + 4), U32At(b, at + 8));
    if l.size > 0 && RangeOf(b, l).Corrupt? then Corrupt else Ok(Entry(U32At(b, at), l))
  }

  /** The first `n` directory entries; every non-empty location must lie within the dump. */
  function Entries(b: Bytes, start: nat, n: nat): Parsed<seq<Entry>>
    requires start + n * ENTRY_SIZE <= |b|
  {
    if n == 0 then Ok([])
    else
      var init :- Entries(b, start, n - 1);
      var last :- EntryAt(b, start + (n - 1) * ENTRY_SIZE);
      Ok(init + [last])
  }

  function DirectoryOf(b: Bytes, h: Header): Parsed<seq<Entry>> {
    if h.directory + h.streams * ENTRY_SIZE > |b| then Corrupt else Entries(b, h.directory, h.streams)
  }

  predicate IsThreadStream(streamType: u32) {
    streamType == STREAM_THREAD_LIST || streamType == STREAM_THREAD_EX_LIST
  }

  function FindStream(entries: seq<Entry>, streamType: u32): (r: Option<Entry>)
    ensures r.Some? ==> r.value in entries && r.value.streamType == streamType
  {
    if entries == [] then None
    else if entries[0].streamType == streamType then Some(entries[0])
    else FindStream(entries[1..], streamType)
  }

  function FindThreads(entries: seq<Entry>): (r: Option<Entry>)
    ensures r.Some? ==> r.value in entries && IsThreadStream(r.value.streamType)
  {
    if entries == [] then None
    else if IsThreadStream(entries[0].streamType) then Some(entries[0])
    else FindThreads(entries[1..])
  }

  // ----- the system -----

  predicate IsWindows(platform: u32) {
    1 <= platform <= 4
  }

  const PROCESSOR_AMD64: u16 := 9

  datatype System = System(processors: u8, major: u32, minor: u32, build: u32, platform: u32)

  /** Only user-mode dumps of 64-bit Windows processes are supported. */
  function SystemOf(b: Bytes, l: Location): Parsed<System> {
    var data :- RangeOf(b, l);
    if |data| < 56 then Corrupt
    else if !IsWindows(U32At(data, 20)) || U16At(data, 0) != PROCESSOR_AMD64 then Unsupported
    else Ok(System(data[6], U32At(data, 8), U32At(data, 12), U32At(data, 16), U32At(data, 20)))
  }

  function ProcessOf(s: System, pid: Option<u32>): InspectProcess {
    InspectProcess(
      pid, "x86_64", "windows",
      Some(Numeral(s.major, Decimal) + "." + Numeral(s.minor, Decimal) + "." + Numeral(s.build, Decimal)),
      Some(s.platform), Some(s.build), Some(s.processors))
  }

  function DumpOf(d: Decoders, b: Bytes, h: Header): InspectDump {
    InspectDump("user_minidump", |b|, "MDMP", h.streams, FormatHex(h.flags),
                if h.timestamp == 0 then None else d.date(h.timestamp))
  }

  // ----- CPU contexts -----

  const REGISTERS: seq<string> := [
    "rax", "rcx", "rdx", "rbx", "rsp", "rbp", "rsi", "rdi", "r8", "r9", "r10", "r11", "r12", "r13", "r14", "r15", "rip"
  ]

  /** Where the `k`-th register lies in a context. */
  function RegisterOffset(k: nat): nat {
    120 + 8 * k
  }

  /** The first `n` registers. */
  function FirstRegisters(data: Bytes, n: nat): map<string, string>
    requires n <= |REGISTERS| && RegisterOffset(n) <= |data|
  {
    if n == 0 then map[]
    else FirstRegisters(data, n - 1)[REGISTERS[n - 1] := FormatHex(U64At(data, RegisterOffset(n - 1)))]
  }

  /** All seventeen registers, or none of them when the context is too short. */
  function RegistersOf(data: Bytes): map<string, string> {
    if |data| < RegisterOffset(|REGISTERS|) then map[] else FirstRegisters(data, |REGISTERS|)
  }

  method ParseRegisters(data: Bytes) returns (registers: map<string, string>)
    ensures registers == RegistersOf(data)
  {
    hide U64At, FormatHex;
    registers := map[];
    for k := 0 to |REGISTERS|
      invariant RegisterOffset(k) <= |data| || k == 0
      invariant registers == if k == 0 then map[] else FirstRegisters(data, k)
    {
      if |data| < RegisterOffset(k) + 8 {
        return map[];
      }
      registers := registers[REGISTERS[k] := FormatHex(U64At(data, RegisterOffset(k)))];
    }
  }

  /** A CPU context may be absent; if it is there it must lie within the dump. */
  function ContextOf(b: Bytes, l: Location): Parsed<Option<InspectContext>> {
    if l.size == 0 && l.rva == 0 then Ok(None)
    else
      var data :- RangeOf(b, l);
      Ok(Some(InspectContext(
        l.size, l.rva, if |data| >= 52 then Some(FormatHex32(U32At(data, 48))) else None, RegistersOf(data))))
  }

  method ParseContext(b: Bytes, l: Location) returns (r: Parsed<Option<InspectContext>>)
    ensures r == ContextOf(b, l)
  {
    hide RegistersOf;
    if l.size == 0 && l.rva == 0 {
      return Ok(None);
    }
    var data :- RangeOf(b, l);
    var registers := ParseRegisters(data);
    r := Ok(Some(InspectContext(
      l.size, l.rva, if |data| >= 52 then Some(FormatHex32(U32At(data, 48))) else None, registers)));
  }

  // ----- threads -----

  /** Where the `i`-th thread record begins; the extended list has longer records. */
  function ThreadOffset(streamType: u32, i: nat): nat {
    if streamType == STREAM_THREAD_EX_LIST then 4 + 64 * i else 4 + 48 * i
  }

  function ThreadAt(b: Bytes, data: Bytes, at: nat): Parsed<InspectThread>
    requires at + 48 <= |data|
  {
    var context :- ContextOf(b, Location(U32At(data, at + 40), U32At(data, at + 44)));
    Ok(InspectThread(
      U32At(data, at), FormatHex(U64At(data, at + 16)), FormatHex(U64At(data, at + 24)), U32At(data, at + 32), context))
  }

  function Threads(b: Bytes, data: Bytes, streamType: u32, n: nat): Parsed<seq<InspectThread>>
    requires ThreadOffset(streamType, n) <= |data|
  {
    if n == 0 then Ok([])
    else
      var init :- Threads(b, data, streamType, n - 1);
      var last :- ThreadAt(b, data, ThreadOffset(streamType, n - 1));
      Ok(init + [last])
  }

  function ThreadList(b: Bytes, e: Entry): Parsed<seq<InspectThread>> {
    var data :- RangeOf(b, e.location);
    if |data| < 4 then Corrupt
    else
      var count := U32At(data, 0);
      if count > MAX_THREADS || |data| < ThreadOffset(e.streamType, count) then Corrupt
      else Threads(b, data, e.streamType, count)
  }

  // ----- modules -----

  function Units(content: Bytes): seq<u16>
    requires |content| % 2 == 0
  {
    seq(|content| / 2, i requires 0 <= i < |content| / 2 => U16At(content, 2 * i))
  }

  /** A length-prefixed UTF-16 string; there is none at offset zero. */
  function StringAt(d: Decoders, b: Bytes, rva: u32): Parsed<Option<string>> {
    if rva == 0 then Ok(None)
    else if rva + 4 > |b| then Corrupt
    else
      var length := U32At(b, rva);
      if length % 2 != 0 || rva + 4 + length > |b| then Corrupt
      else Ok(Some(d.utf16(Units(b[rva + 4..rva + 4 + length]))))
  }

  datatype CodeView = CodeView(debugId: string, path: string)

  const RSDS: Bytes := [0x52, 0x53, 0x44, 0x53]

  function HexOf(b: Bytes): (s: string)
    ensures |s| == 2 * |b| && AllLowerHex(s)
  {
    if b == [] then ""
    else HexOf(b[..|b| - 1]) + [DigitChar(b[|b| - 1] / 16), DigitChar(b[|b| - 1] % 16)]
  }

  /** GUID and age in one text: 32 digits, then the age in shortest form. */
  function RsdsId(data1: u32, data2: u16, data3: u16, tail: Bytes, age: u32): string {
    Padded(data1, 8) + Padded(data2, 4) + Padded(data3, 4) + HexOf(tail) + Numeral(age, Hexadecimal)
  }

  function RecordId(record: Bytes): string
    requires |record| >= 24
  {
    RsdsId(U32At(record, 4), U16At(record, 8), U16At(record, 10), record[12..20], U32At(record, 20))
  }

  /** The bytes before the first zero. */
  function UpToZero(b: Bytes): (r: Bytes)
    ensures |r| <= |b| && r == b[..|r|] && 0 !in r
    ensures |r| < |b| ==> b[|r|] == 0
  {
    if b == [] || b[0] == 0 then [] else [b[0]] + UpToZero(b[1..])
  }

  /** The dump's reading of a CodeView record; other kinds than RSDS say nothing. */
  function CodeViewOf(d: Decoders, record: Bytes): Parsed<Option<CodeView>> {
    if |record| < 4 then Corrupt
    else if record[..4] != RSDS then Ok(None)
    else if |record| < 24 then Corrupt
    else Ok(Some(CodeView(RecordId(record), d.utf8(UpToZero(record[24..])))))
  }

  function ModuleCodeView(d: Decoders, b: Bytes, l: Location): Parsed<Option<CodeView>> {
    if l.size == 0 && l.rva == 0 then Ok(None)
    else
      var record :- RangeOf(b, l);
      CodeViewOf(d, record)
  }

  /** Time stamp in eight digits and image size in shortest form, both in upper case. */
  function CodeId(timestamp: u32, imageSize: u32): string {
    Upper(Padded(timestamp, 8)) + Upper(Numeral(imageSize, Hexadecimal))
  }

  function ModuleAt(d: Decoders, b: Bytes, data: Bytes, at: nat): Parsed<InspectModule>
    requires at + MODULE_SIZE <= |data|
  {
    var name :- StringAt(d, b, U32At(data, at + 20));
    var cv :- ModuleCodeView(d, b, Location(U32At(data, at + 76), U32At(data, at + 80)));
    Ok(InspectModule(
      if name.Some? then name.value else "<unnamed>",
      CodeId(U32At(data, at + 16), U32At(data, at + 8)),
      if cv.Some? then Some(cv.value.path) else None,
      if cv.Some? then Some(cv.value.debugId) else None,
      FormatHex(U64At(data, at)),
      U32At(data, at + 8),
      FormatHex32(U32At(data, at + 16)),
      FormatHex32(U32At(data, at + 12))))
  }

  function Modules(d: Decoders, b: Bytes, data: Bytes, n: nat): (r: Parsed<seq<InspectModule>>)
    requires 4 + n * MODULE_SIZE <= |data|
    ensures r.Ok? ==> |r.value| == n
  {
    if n == 0 then Ok([])
    else
      var init :- Modules(d, b, data, n - 1);
      var last :- ModuleAt(d, b, data, 4 + (n - 1) * MODULE_SIZE);
      Ok(init + [last])
  }

  /** How many modules a stream declares, and how many of them are kept. */
  function Retained(count: u32): nat {
    Least(count, MAX_MODULES)
  }

  /** The kept modules, and the declared number when some were cut off. */
  datatype ModuleListing = ModuleListing(modules: seq<InspectModule>, cut: Option<u32>)

  function CutOf(count: u32): Option<u32> {
    if count > MAX_MODULES then Some(count) else None
  }

  function ModuleList(d: Decoders, b: Bytes, e: Entry): Parsed<ModuleListing> {
    var data :- RangeOf(b, e.location);
    if |data| < 4 then Corrupt
    else
      var count := U32At(data, 0);
      if |data| < 4 + Retained(count) * MODULE_SIZE then Corrupt
      else
        var modules :- Modules(d, b, data, Retained(count));
        Ok(ModuleListing(modules, CutOf(count)))
  }

  function Backslashes(s: string): string {
    if s == "" then "" else [if s[0] == '/' then '\\' else s[0]] + Backslashes(s[1..])
  }

  /** The modules prove a 32-bit process under 64-bit Windows. */
  predicate IsWow64(modules: seq<InspectModule>) {
    && (exists i | 0 <= i < |modules| :: EndsWith(Lower(Backslashes(modules[i].codeFile)), "\\syswow64\\ntdll.dll"))
    && (exists i | 0 <= i < |modules| ::
          var name := Lower(Basename(modules[i].codeFile)); name == "wow64.dll" || name == "wow64cpu.dll")
  }

  // ----- the exception -----

  const MAX_PARAMETERS: nat := 15

  function AccessType(code: u32, data: Bytes, parameters: nat): Option<string>
    requires |data| >= 48
  {
    if code != ACCESS_VIOLATION || parameters == 0 then None
    else if U64At(data, 40) == 0 then Some("read")
    else if U64At(data, 40) == 1 then Some("write")
    else if U64At(data, 40) == 8 then Some("execute")
    else None
  }

  /** The address that an access violation refers to. */
  function FaultAddress(code: u32, data: Bytes, parameters: nat): Option<string>
    requires |data| >= 56
  {
    if code == ACCESS_VIOLATION && parameters >= 2 then Some(FormatHex(U64At(data, 48))) else None
  }

  function ExceptionName(code: u32): Option<string> {
    if code == 0xc000_0005 then Some("EXCEPTION_ACCESS_VIOLATION")
    else if code == 0xc000_001d then Some("EXCEPTION_ILLEGAL_INSTRUCTION")
    else if code == 0xc000_0094 then Some("EXCEPTION_INT_DIVIDE_BY_ZERO")
    else if code == 0xc000_0096 then Some("EXCEPTION_PRIV_INSTRUCTION")
    else if code == 0xc000_00fd then Some("STATUS_STACK_OVERFLOW")
    else if code == 0xe06d_7363 then Some("MSVC_CPP_EXCEPTION")
    else if code == 0x4000_0015 then Some("STATUS_FATAL_APP_EXIT")
    else None
  }

  function Parameters(data: Bytes, n: nat): seq<string>
    requires n <= MAX_PARAMETERS && |data| >= 160
  {
    seq(n, i requires 0 <= i < n => FormatHex(U64At(data, 40 + 8 * i)))
  }

  function ExceptionRecord(data: Bytes, context: Option<InspectContext>): InspectException
    requires |data| >= 168
  {
    var code, n := U32At(data, 8), Least(U32At(data, 32), MAX_PARAMETERS);
    InspectException(
      U32At(data, 0), "0x" + Upper(Padded(code, 8)), ExceptionName(code), FormatHex32(U32At(data, 12)),
      FormatHex(U64At(data, 24)), FaultAddress(code, data, n), AccessType(code, data, n), Parameters(data, n), context)
  }

  function ExceptionOf(b: Bytes, l: Location): Parsed<InspectException> {
    var data :- RangeOf(b, l);
    if |data| < 168 then Corrupt
    else
      var context :- ContextOf(b, Location(U32At(data, 160), U32At(data, 164)));
      Ok(ExceptionRecord(data, context))
  }

  // ----- the report -----

  function ThreadsOf(b: Bytes, entries: seq<Entry>): Parsed<seq<InspectThread>> {
    match FindThreads(entries)
    case None => Ok([])
    case Some(e) => ThreadList(b, e)
  }

  function ModulesOf(d: Decoders, b: Bytes, entries: seq<Entry>): Parsed<ModuleListing> {
    match FindStream(entries, STREAM_MODULE_LIST)
    case None => Ok(ModuleListing([], None))
    case Some(e) => ModuleList(d, b, e)
  }

  function MaybeException(b: Bytes, entries: seq<Entry>): Parsed<Option<InspectException>> {
    match FindStream(entries, STREAM_EXCEPTION)
    case None => Ok(None)
    case Some(e) =>
      var x :- ExceptionOf(b, e.location);
      Ok(Some(x))
  }

  /** The process id, from a stream that is long enough to hold it. */
  function PidAt(b: Bytes, l: Location): Parsed<Option<u32>> {
    var data :- RangeOf(b, l);
    Ok(if |data| < 12 then None else Some(U32At(data, 8)))
  }

  function PidOf(b: Bytes, entries: seq<Entry>): Parsed<Option<u32>> {
    match FindStream(entries, STREAM_MISC_INFO)
    case None => Ok(None)
    case Some(e) => PidAt(b, e.location)
  }

  function WarnWhen(condition: bool, warning: InspectWarning): seq<InspectWarning> {
    if condition then [warning] else []
  }

  const NO_THREADS := InspectWarning("missing_thread_list", "the dump has no ThreadListStream or ThreadExListStream")
  const NO_MODULES := InspectWarning("missing_module_list", "the dump has no ModuleListStream")
  const NO_EXCEPTION :=
    InspectWarning("missing_exception_stream", "the dump has no ExceptionStream; crash type remains unknown")

  function ModulesCut(count: u32): InspectWarning {
    InspectWarning(
      "module_limit_truncated",
      "module count " + Numeral(count, Decimal) + " exceeds limit 4096; only the first 4096 modules were retained")
  }

  function Warnings(entries: seq<Entry>, cut: Option<u32>): seq<InspectWarning> {
    WarnWhen(FindThreads(entries).None?, NO_THREADS)
    + (if FindStream(entries, STREAM_MODULE_LIST).None? then [NO_MODULES]
       else if cut.Some? then [ModulesCut(cut.value)]
       else [])
    + WarnWhen(FindStream(entries, STREAM_EXCEPTION).None?, NO_EXCEPTION)
  }

  /** What is reported about the streams of a directory. */
  function ReportOf(d: Decoders, b: Bytes, h: Header, entries: seq<Entry>): Parsed<InspectReport> {
    match FindStream(entries, STREAM_SYSTEM_INFO)
    case None => Corrupt
    case Some(e) =>
      var system :- SystemOf(b, e.location);
      var threads :- ThreadsOf(b, entries);
      var listing :- ModulesOf(d, b, entries);
      if IsWow64(listing.modules) then Unsupported
      else
        var x :- MaybeException(b, entries);
        var pid :- PidOf(b, entries);
        Ok(InspectReport(
          "0.1", DumpOf(d, b, h), ProcessOf(system, pid), x, if x.Some? then Some(x.value.threadId) else None, threads,
          listing.modules, Warnings(entries, listing.cut)))
  }

  /** `inspect_bytes`, for every byte string. */
  function Inspected(d: Decoders, b: Bytes): Parsed<InspectReport> {
    if |b| > MAX_DUMP_BYTES then Unsupported
    else
      var h :- HeaderOf(b);
      var entries :- DirectoryOf(b, h);
      ReportOf(d, b, h, entries)
  }

  // ----- the loops -----

  lemma {:induction false} EntriesFail(b: Bytes, start: nat, i: nat, n: nat)
    requires i <= n && start + n * ENTRY_SIZE <= |b| && !Entries(b, start, i).Ok?
    ensures Entries(b, start, n) == Entries(b, start, i)
    decreases n - i
  {
    hide EntryAt;
    if i < n {
      EntriesFail(b, start, i + 1, n);
    }
  }

  method ParseDirectories(b: Bytes, h: Header) returns (r: Parsed<seq<Entry>>)
    ensures r == DirectoryOf(b, h)
  {
    hide EntryAt;
    if h.directory + h.streams * ENTRY_SIZE > |b| {
      return Corrupt;
    }
    var entries: seq<Entry> := [];
    for index := 0 to h.streams
      invariant Entries(b, h.directory, index) == Ok(entries)
    {
      var entry := EntryAt(b, h.directory + index * ENTRY_SIZE);
      if !entry.Ok? {
        EntriesFail(b, h.directory, index + 1, h.streams);
        return entry.PropagateFailure();
      }
      entries := entries + [entry.value];
    }
    r := Ok(entries);
  }

  lemma {:induction false} ThreadsFail(b: Bytes, data: Bytes, streamType: u32, i: nat, n: nat)
    requires i <= n && ThreadOffset(streamType, n) <= |data| && !Threads(b, data, streamType, i).Ok?
    ensures Threads(b, data, streamType, n) == Threads(b, data, streamType, i)
    decreases n - i
  {
    hide ThreadAt;
    if i < n {
      ThreadsFail(b, data, streamType, i + 1, n);
    }
  }

  method ParseThreads(b: Bytes, e: Entry) returns (r: Parsed<seq<InspectThread>>)
    ensures r == ThreadList(b, e)
  {
    hide ThreadAt;
    var data := RangeOf(b, e.location);
    if !data.Ok? || |data.value| < 4 {
      return Corrupt;
    }
    var count := U32At(data.value, 0);
    if count > MAX_THREADS || |data.value| < ThreadOffset(e.streamType, count) {
      return Corrupt;
    }
    var threads: seq<InspectThread> := [];
    for index := 0 to count
      invariant Threads(b, data.value, e.streamType, index) == Ok(threads)
    {
      var thread := ThreadAt(b, data.value, ThreadOffset(e.streamType, index));
      if !thread.Ok? {
        ThreadsFail(b, data.value, e.streamType, index + 1, count);
        return thread.PropagateFailure();
      }
      threads := threads + [thread.value];
    }
    r := Ok(threads);
  }

  lemma {:induction false} ModulesFail(d: Decoders, b: Bytes, data: Bytes, i: nat, n: nat)
    requires i <= n && 4 + n * MODULE_SIZE <= |data| && !Modules(d, b, data, i).Ok?
    ensures Modules(d, b, data, n) == Modules(d, b, data, i)
    decreases n - i
  {
    hide ModuleAt;
    if i < n {
      ModulesFail(d, b, data, i + 1, n);
    }
  }

  method ParseModules(d: Decoders, b: Bytes, e: Entry) returns (r: Parsed<ModuleListing>)
    ensures r == ModuleList(d, b, e)
  {
    hide ModuleAt;
    var data := RangeOf(b, e.location);
    if !data.Ok? || |data.value| < 4 {
      return Corrupt;
    }
    var count := U32At(data.value, 0);
    if |data.value| < 4 + Retained(count) * MODULE_SIZE {
      return Corrupt;
    }
    var modules: seq<InspectModule> := [];
    for index := 0 to Retained(count)
      invariant Modules(d, b, data.value, index) == Ok(modules)
    {
      var m := ModuleAt(d, b, data.value, 4 + index * MODULE_SIZE);
      if !m.Ok? {
        ModulesFail(d, b, data.value, index + 1, Retained(count));
        return m.PropagateFailure();
      }
      modules := modules + [m.value];
    }
    r := Ok(ModuleListing(modules, CutOf(count)));
  }

  method ParseException(b: Bytes, l: Location) returns (r: Parsed<InspectException>)
    ensures r == ExceptionOf(b, l)
  {
    hide ContextOf, FaultAddress, AccessType, ExceptionName, FormatHex, FormatHex32, Padded, U32At, U64At;
    var data :- RangeOf(b, l);
    if |data| < 168 {
      return Corrupt;
    }
    var code, count := U32At(data, 8), Least(U32At(data, 32), MAX_PARAMETERS);
    var parameters: seq<string> := [];
    for i := 0 to count
      invariant parameters == Parameters(data, i)
    {
      parameters := parameters + [FormatHex(U64At(data, 40 + 8 * i))];
    }
    var located := ParseContext(b, Location(U32At(data, 160), U32At(data, 164)));
    var context :- located;
    r := Ok(InspectException(
      U32At(data, 0), "0x" + Upper(Padded(code, 8)), ExceptionName(code), FormatHex32(U32At(data, 12)),
      FormatHex(U64At(data, 24)), FaultAddress(code, data, count), AccessType(code, data, count), parameters, context));
  }

  /** `inspect_bytes`. */
  method InspectBytes(d: Decoders, b: Bytes) returns (r: Parsed<InspectReport>)
    ensures r == Inspected(d, b)
  {
    hide HeaderOf, DirectoryOf, SystemOf, ThreadList, ModuleList, IsWow64, ExceptionOf, PidAt, DumpOf, ProcessOf, FindStream,
         FindThreads;
    if |b| > MAX_DUMP_BYTES {
      return Unsupported;
    }
    var header :- HeaderOf(b);
    var directories := ParseDirectories(b, header);
    var entries :- directories;
    var entry := FindStream(entries, STREAM_SYSTEM_INFO);
    if entry.None? {
      return Corrupt;
    }
    var system :- SystemOf(b, entry.value.location);
    var warnings: seq<InspectWarning>, threads: seq<InspectThread>, listing := [], [], ModuleListing([], None);
    entry := FindThreads(entries);
    if entry.Some? {
      var parsed := ParseThreads(b, entry.value);
      threads :- parsed;
    } else {
      warnings := warnings + [NO_THREADS];
    }
    entry := FindStream(entries, STREAM_MODULE_LIST);
    if entry.Some? {
      var parsed := ParseModules(d, b, entry.value);
      listing :- parsed;
      if listing.cut.Some? {
        warnings := warnings + [ModulesCut(listing.cut.value)];
      }
    } else {
      warnings := warnings + [NO_MODULES];
    }
    if IsWow64(listing.modules) {
      return Unsupported;
    }
    var x: Option<InspectException> := None;
    entry := FindStream(entries, STREAM_EXCEPTION);
    if entry.Some? {
      var parsed := ParseException(b, entry.value.location);
      var found :- parsed;
      x := Some(found);
    } else {
      warnings := warnings + [NO_EXCEPTION];
    }
    var pid: Option<u32> := None;
    entry := FindStream(entries, STREAM_MISC_INFO);
    if entry.Some? {
      pid :- PidAt(b, entry.value.location);
    }
    assert warnings == Warnings(entries, listing.cut);
    r := Ok(InspectReport(
      "0.1", DumpOf(d, b, header), ProcessOf(system, pid), x, if x.Some? then Some(x.value.threadId) else None, threads,
      listing.modules, warnings));
  }
}
