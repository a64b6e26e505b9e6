/** Laws of the dump reader: counts, identities, and independence from trailing bytes. */
module MinidumpLaws {
  import opened Basics
  import opened Text
  import opened Evidence
  import opened Composition
  import opened Minidump
  import Utf8

  // ----- identities -----

  lemma {:induction false} LowerUndoesUpper(s: string)
    requires AllLowerHex(s)
    ensures Lower(Upper(s)) == s
  {
    forall i | 0 <= i < |s|
      ensures LowerChar(UpperChar(s[i])) == s[i]
    {
    }
  }

  lemma Widths()
    ensures Power16(8) == U32_BOUND && Power16(4) == U16_BOUND && Power16(2) == 256
  {
    assert Power16(2) == 16 * (16 * Power16(0));
    assert Power16(4) == 16 * (16 * Power16(2));
    assert Power16(8) == 16 * (16 * (16 * (16 * Power16(4))));
  }

  /** A code id is read as its lower-case form: eight digits of the time stamp, then the image size. */
  lemma CodeIdCaptured(timestamp: u32, imageSize: u32)
    ensures Lower(CodeId(timestamp, imageSize)) == Padded(timestamp, 8) + Numeral(imageSize, Hexadecimal)
    ensures CapturedCodeId(CodeId(timestamp, imageSize)) == Some(Lower(CodeId(timestamp, imageSize)))
  {
    hide Padded, Numeral;
    Widths();
    PaddedShape(timestamp, 8);
    HexWidth(imageSize, 8);
    LowerUndoesUpper(Padded(timestamp, 8));
    LowerUndoesUpper(Numeral(imageSize, Hexadecimal));
    LowerAppend(Upper(Padded(timestamp, 8)), Upper(Numeral(imageSize, Hexadecimal)));
  }

  /** A code id tells its time stamp and image size. */
  lemma CodeIdInjective(t1: u32, s1: u32, t2: u32, s2: u32)
    requires CodeId(t1, s1) == CodeId(t2, s2)
    ensures t1 == t2 && s1 == s2
  {
    hide Padded, Numeral, CodeId;
    CodeIdCaptured(t1, s1);
    CodeIdCaptured(t2, s2);
    Widths();
    PaddedSplits(t1, t2, 8, Numeral(s1, Hexadecimal), Numeral(s2, Hexadecimal));
    NumeralInjective(s1, s2, Hexadecimal);
  }

  lemma {:induction false} HexInjective(a: Bytes, b: Bytes)
    requires HexOf(a) == HexOf(b)
    ensures a == b
  {
    if a != [] && b != [] {
      var x, y := HexOf(a), HexOf(b);
      assert x[..|x| - 2] == HexOf(a[..|a| - 1]) && y[..|y| - 2] == HexOf(b[..|b| - 1]);
      HexInjective(a[..|a| - 1], b[..|b| - 1]);
      SameByte(a[|a| - 1], b[|b| - 1]);
      assert a == a[..|a| - 1] + [a[|a| - 1]] && b == b[..|b| - 1] + [b[|b| - 1]];
    }
  }

  lemma SameByte(x: Utf8.byte, y: Utf8.byte)
    ensures DigitChar(x / 16) == DigitChar(y / 16) && DigitChar(x % 16) == DigitChar(y % 16) ==> x == y
  {
    assert DigitValue(DigitChar(x / 16)) == x / 16 && DigitValue(DigitChar(y / 16)) == y / 16;
    assert DigitValue(DigitChar(x % 16)) == x % 16 && DigitValue(DigitChar(y % 16)) == y % 16;
  }

  lemma RsdsIdShape(data1: u32, data2: u16, data3: u16, tail: Bytes, age: u32)
    requires |tail| == 8
    ensures var id := RsdsId(data1, data2, data3, tail, age);
            33 <= |id| <= 40 && AllLowerHex(id) && id[32..] == Numeral(age, Hexadecimal)
  {
    hide Padded, Numeral, HexOf;
    Widths();
    PaddedShape(data1, 8);
    PaddedShape(data2, 4);
    PaddedShape(data3, 4);
    HexWidth(age, 8);
  }

  /** A debug id is captured as it is. */
  lemma DebugIdCaptured(id: string, age: u32)
    requires 33 <= |id| <= 40 && AllLowerHex(id) && id[32..] == Numeral(age, Hexadecimal)
    ensures CapturedDebugId(id) == Some(id)
  {
    DashesGone(id);
    LowerHexFixed(id);
    NumeralRoundTrip(age, Hexadecimal);
    assert id[32] != '+';
    assert ParseUnsigned(id[32..], Hexadecimal, U32_BOUND) == Some(age);
    assert id == id[..32] + id[32..];
  }

  /** A debug id tells the GUID and the age. */
  lemma DebugIdInjective(
    a1: u32, b1: u16, c1: u16, t1: Bytes, age1: u32, a2: u32, b2: u16, c2: u16, t2: Bytes, age2: u32)
    requires |t1| == |t2| == 8 && RsdsId(a1, b1, c1, t1, age1) == RsdsId(a2, b2, c2, t2, age2)
    ensures a1 == a2 && b1 == b2 && c1 == c2 && t1 == t2 && age1 == age2
  {
    hide Padded, Numeral, HexOf;
    Widths();
    var z1, z2 := HexOf(t1) + Numeral(age1, Hexadecimal), HexOf(t2) + Numeral(age2, Hexadecimal);
    var y1, y2 := Padded(c1, 4) + z1, Padded(c2, 4) + z2;
    var x1, x2 := Padded(b1, 4) + y1, Padded(b2, 4) + y2;
    assert RsdsId(a1, b1, c1, t1, age1) == Padded(a1, 8) + x1;
    assert RsdsId(a2, b2, c2, t2, age2) == Padded(a2, 8) + x2;
    PaddedSplits(a1, a2, 8, x1, x2);
    PaddedSplits(b1, b2, 4, y1, y2);
    PaddedSplits(c1, c2, 4, z1, z2);
    assert HexOf(t1) == z1[..16] && HexOf(t2) == z2[..16];
    assert Numeral(age1, Hexadecimal) == z1[16..] && Numeral(age2, Hexadecimal) == z2[16..];
    HexInjective(t1, t2);
    NumeralInjective(age1, age2, Hexadecimal);
  }

  /** What a reported module always carries. */
  ghost predicate Wellspoken(m: InspectModule) {
    && Captured(m, "x86_64") == Some(ModuleIdentity(Some(Lower(m.codeId)), m.debugId, "x86_64"))
    && Printed(m)
  }

  lemma ModuleWellspoken(d: Decoders, b: Bytes, data: Bytes, at: nat)
    requires at + MODULE_SIZE <= |data| && ModuleAt(d, b, data, at).Ok?
    ensures Wellspoken(ModuleAt(d, b, data, at).value)
  {
    hide CodeId, RsdsId, FormatHex, CapturedDebugId, CapturedCodeId, StringAt, UpToZero, Lower;
    var m := ModuleAt(d, b, data, at).value;
    CodeIdCaptured(U32At(data, at + 16), U32At(data, at + 8));
    if m.debugId.Some? {
      var record := RangeOf(b, Location(U32At(data, at + 76), U32At(data, at + 80))).value;
      RsdsIdShape(U32At(record, 4), U16At(record, 8), U16At(record, 10), record[12..20], U32At(record, 20));
      DebugIdCaptured(m.debugId.value, U32At(record, 20));
    }
    assert m.imageBase == FormatHex(U64At(data, at));
  }

  lemma {:induction false} ModulesWellspoken(d: Decoders, b: Bytes, data: Bytes, n: nat)
    requires 4 + n * MODULE_SIZE <= |data| && Modules(d, b, data, n).Ok?
    ensures forall m | m in Modules(d, b, data, n).value :: Wellspoken(m)
  {
    hide ModuleAt, Wellspoken;
    if n > 0 {
      ModulesWellspoken(d, b, data, n - 1);
      ModuleWellspoken(d, b, data, 4 + (n - 1) * MODULE_SIZE);
    }
  }

  /** How many modules the dump declares. */
  function Declared(b: Bytes, entries: seq<Entry>): Option<u32> {
    match FindStream(entries, STREAM_MODULE_LIST)
    case None => None
    case Some(e) =>
      var data := RangeOf(b, e.location);
      if data.Ok? && |data.value| >= 4 then Some(U32At(data.value, 0)) else None
  }

  lemma ListingLaws(d: Decoders, b: Bytes, entries: seq<Entry>)
    requires ModulesOf(d, b, entries).Ok?
    ensures var listing := ModulesOf(d, b, entries).value;
            && (forall m | m in listing.modules :: Wellspoken(m))
            && |listing.modules| == (match Declared(b, entries)
                                     case Some(count) => Retained(count)
                                     case None => 0)
            && listing.cut == (match Declared(b, entries)
                               case Some(count) => CutOf(count)
                               case None => None)
  {
    hide Wellspoken, U32At, Modules;
    match FindStream(entries, STREAM_MODULE_LIST) {
      case None =>
      case Some(e) =>
        var data := RangeOf(b, e.location).value;
        ModulesWellspoken(d, b, data, Retained(U32At(data, 0)));
    }
  }

  /**
   Every report: at most 4096 modules, namely the declared number where that is smaller, with a warning
   exactly when modules were dropped; every module is captured under the ids it is reported with; the
   crashing thread is the exception's; the size is that of the dump.
   */
  lemma EveryReport(d: Decoders, b: Bytes)
    requires Inspected(d, b).Ok?
    ensures HeaderOf(b).Ok? && DirectoryOf(b, HeaderOf(b).value).Ok?
    ensures var report, entries := Inspected(d, b).value, DirectoryOf(b, HeaderOf(b).value).value;
            && report.process.architecture == "x86_64"
            && (forall m | m in report.modules :: Wellspoken(m))
            && |report.modules| == (match Declared(b, entries)
                                    case Some(count) => Retained(count)
                                    case None => 0)
            && ((exists w | w in report.warnings :: w.code == "module_limit_truncated") <==>
                  Declared(b, entries).Some? && Declared(b, entries).value > MAX_MODULES)
            && report.dump.size == |b|
            && report.crashThreadId == (if report.exception.Some? then Some(report.exception.value.threadId) else None)
  {
    hide HeaderOf, DirectoryOf, SystemOf, ThreadsOf, ModulesOf, IsWow64, MaybeException, PidOf, Wellspoken, Declared, Warnings;
    var entries := DirectoryOf(b, HeaderOf(b).value).value;
    ListingLaws(d, b, entries);
    WarnedWhen(entries, ModulesOf(d, b, entries).value.cut);
    NoListNoCount(b, entries);
  }

  lemma WarnedWhen(entries: seq<Entry>, cut: Option<u32>)
    ensures (exists w | w in Warnings(entries, cut) :: w.code == "module_limit_truncated") <==>
              cut.Some? && FindStream(entries, STREAM_MODULE_LIST).Some?
  {
    hide FindStream, FindThreads, Numeral;
    assert |"module_limit_truncated"| == 22 && |NO_THREADS.code| == 19 && |NO_MODULES.code| == 19 && |NO_EXCEPTION.code| == 24;
    var all := Warnings(entries, cut);
    forall w | w in all && w.code == "module_limit_truncated"
      ensures cut.Some? && FindStream(entries, STREAM_MODULE_LIST).Some?
    {
      assert w != NO_THREADS && w != NO_MODULES && w != NO_EXCEPTION;
    }
    if cut.Some? && FindStream(entries, STREAM_MODULE_LIST).Some? {
      assert ModulesCut(cut.value) in all;
    }
  }

  lemma NoListNoCount(b: Bytes, entries: seq<Entry>)
    ensures Declared(b, entries).Some? ==> FindStream(entries, STREAM_MODULE_LIST).Some?
  {
  }

  // ----- trailing bytes -----

  lemma RangeGrows(b: Bytes, extra: Bytes, l: Location)
    requires RangeOf(b, l).Ok?
    ensures RangeOf(b + extra, l) == RangeOf(b, l)
  {
    assert (b + extra)[l.rva..l.rva + l.size] == b[l.rva..l.rva + l.size];
  }

  lemma U32Grows(b: Bytes, extra: Bytes, i: nat)
    requires i + 4 <= |b|
    ensures U32At(b + extra, i) == U32At(b, i)
  {
  }

  lemma ContextGrows(b: Bytes, extra: Bytes, l: Location)
    requires ContextOf(b, l).Ok?
    ensures ContextOf(b + extra, l) == ContextOf(b, l)
  {
    hide RegistersOf, FormatHex32, RangeOf;
    if l.size != 0 || l.rva != 0 {
      RangeGrows(b, extra, l);
    }
  }

  lemma EntryGrows(b: Bytes, extra: Bytes, at: nat)
    requires at + ENTRY_SIZE <= |b| && EntryAt(b, at).Ok?
    ensures EntryAt(b + extra, at) == EntryAt(b, at)
  {
    hide U32At;
    U32Grows(b, extra, at);
    U32Grows(b, extra, at + 4);
    U32Grows(b, extra, at + 8);
  }

  lemma {:induction false} EntriesGrow(b: Bytes, extra: Bytes, start: nat, n: nat)
    requires start + n * ENTRY_SIZE <= |b| && Entries(b, start, n).Ok?
    ensures Entries(b + extra, start, n) == Entries(b, start, n)
  {
    hide EntryAt;
    if n > 0 {
      EntriesGrow(b, extra, start, n - 1);
      EntryGrows(b, extra, start + (n - 1) * ENTRY_SIZE);
    }
  }

  lemma {:induction false} ThreadsGrow(b: Bytes, extra: Bytes, data: Bytes, streamType: u32, n: nat)
    requires ThreadOffset(streamType, n) <= |data| && Threads(b, data, streamType, n).Ok?
    ensures Threads(b + extra, data, streamType, n) == Threads(b, data, streamType, n)
  {
    hide U32At, U64At, ContextOf, FormatHex;
    if n > 0 {
      ThreadsGrow(b, extra, data, streamType, n - 1);
      var at := ThreadOffset(streamType, n - 1);
      ContextGrows(b, extra, Location(U32At(data, at + 40), U32At(data, at + 44)));
    }
  }

  lemma StringGrows(d: Decoders, b: Bytes, extra: Bytes, rva: u32)
    requires StringAt(d, b, rva).Ok?
    ensures StringAt(d, b + extra, rva) == StringAt(d, b, rva)
  {
    hide U32At, Units;
    if rva != 0 {
      U32Grows(b, extra, rva);
      var length := U32At(b, rva);
      assert (b + extra)[rva + 4..rva + 4 + length] == b[rva + 4..rva + 4 + length];
    }
  }

  lemma ModuleGrows(d: Decoders, b: Bytes, extra: Bytes, data: Bytes, at: nat)
    requires at + MODULE_SIZE <= |data| && ModuleAt(d, b, data, at).Ok?
    ensures ModuleAt(d, b + extra, data, at) == ModuleAt(d, b, data, at)
  {
    hide U32At, U64At, StringAt, CodeViewOf, CodeId, FormatHex, FormatHex32, RangeOf;
    StringGrows(d, b, extra, U32At(data, at + 20));
    var l := Location(U32At(data, at + 76), U32At(data, at + 80));
    if !(l.size == 0 && l.rva == 0) {
      RangeGrows(b, extra, l);
    }
  }

  lemma {:induction false} ModulesGrow(d: Decoders, b: Bytes, extra: Bytes, data: Bytes, n: nat)
    requires 4 + n * MODULE_SIZE <= |data| && Modules(d, b, data, n).Ok?
    ensures Modules(d, b + extra, data, n) == Modules(d, b, data, n)
  {
    hide ModuleAt;
    if n > 0 {
      ModulesGrow(d, b, extra, data, n - 1);
      ModuleGrows(d, b, extra, data, 4 + (n - 1) * MODULE_SIZE);
    }
  }

  lemma HeaderGrows(b: Bytes, extra: Bytes)
    requires HeaderOf(b).Ok?
    ensures HeaderOf(b + extra) == HeaderOf(b)
  {
    hide U32At;
    U32Grows(b, extra, 0);
    U32Grows(b, extra, 8);
    U32Grows(b, extra, 12);
    U32Grows(b, extra, 20);
    U32Grows(b, extra, 24);
    U32Grows(b, extra, 28);
  }

  lemma DirectoryGrows(b: Bytes, extra: Bytes, h: Header)
    requires DirectoryOf(b, h).Ok?
    ensures DirectoryOf(b + extra, h) == DirectoryOf(b, h)
  {
    hide Entries;
    EntriesGrow(b, extra, h.directory, h.streams);
  }

  lemma StreamsGrow(d: Decoders, b: Bytes, extra: Bytes, entries: seq<Entry>)
    ensures ThreadsOf(b, entries).Ok? ==> ThreadsOf(b + extra, entries) == ThreadsOf(b, entries)
    ensures ModulesOf(d, b, entries).Ok? ==> ModulesOf(d, b + extra, entries) == ModulesOf(d, b, entries)
  {
    hide FindStream, FindThreads, RangeOf, U32At, Threads, Modules;
    if ThreadsOf(b, entries).Ok? && FindThreads(entries).Some? {
      var e := FindThreads(entries).value;
      RangeGrows(b, extra, e.location);
      var data := RangeOf(b, e.location).value;
      ThreadsGrow(b, extra, data, e.streamType, U32At(data, 0));
    }
    if ModulesOf(d, b, entries).Ok? && FindStream(entries, STREAM_MODULE_LIST).Some? {
      var e := FindStream(entries, STREAM_MODULE_LIST).value;
      RangeGrows(b, extra, e.location);
      var data := RangeOf(b, e.location).value;
      ModulesGrow(d, b, extra, data, Retained(U32At(data, 0)));
    }
  }

  lemma RestGrows(b: Bytes, extra: Bytes, entries: seq<Entry>)
    ensures MaybeException(b, entries).Ok? ==> MaybeException(b + extra, entries) == MaybeException(b, entries)
    ensures PidOf(b, entries).Ok? ==> PidOf(b + extra, entries) == PidOf(b, entries)
    ensures FindStream(entries, STREAM_SYSTEM_INFO).Some? ==>
              var l := FindStream(entries, STREAM_SYSTEM_INFO).value.location;
              SystemOf(b, l).Ok? ==> SystemOf(b + extra, l) == SystemOf(b, l)
  {
    hide FindStream, U32At, U64At, U16At, ContextOf, ExceptionRecord, RangeOf;
    if MaybeException(b, entries).Ok? && FindStream(entries, STREAM_EXCEPTION).Some? {
      var l := FindStream(entries, STREAM_EXCEPTION).value.location;
      RangeGrows(b, extra, l);
      var data := RangeOf(b, l).value;
      ContextGrows(b, extra, Location(U32At(data, 160), U32At(data, 164)));
    }
    if PidOf(b, entries).Ok? && FindStream(entries, STREAM_MISC_INFO).Some? {
      RangeGrows(b, extra, FindStream(entries, STREAM_MISC_INFO).value.location);
    }
    if FindStream(entries, STREAM_SYSTEM_INFO).Some? {
      var l := FindStream(entries, STREAM_SYSTEM_INFO).value.location;
      if SystemOf(b, l).Ok? {
        RangeGrows(b, extra, l);
      }
    }
  }

  /** A report about the same streams of a longer dump. */
  function Longer(report: InspectReport, more: nat): InspectReport {
    report.(dump := report.dump.(size := report.dump.size + more))
  }

  /**
   Nothing outside the located ranges is read: bytes after the end of a readable dump change the reported
   size, by their number, and nothing else.
   */
  lemma TrailingBytes(d: Decoders, b: Bytes, extra: Bytes)
    requires Inspected(d, b).Ok? && |b + extra| <= MAX_DUMP_BYTES
    ensures Inspected(d, b + extra) == Ok(Longer(Inspected(d, b).value, |extra|))
  {
    hide HeaderOf, DirectoryOf, SystemOf, ThreadsOf, ModulesOf, IsWow64, MaybeException, PidOf, FindStream, Warnings, ProcessOf,
         FormatHex;
    HeaderGrows(b, extra);
    DirectoryGrows(b, extra, HeaderOf(b).value);
    var entries := DirectoryOf(b, HeaderOf(b).value).value;
    StreamsGrow(d, b, extra, entries);
    RestGrows(b, extra, entries);
  }
}
