/** What the two table files share: line reading, and lists that may have to be abandoned. */
module Files {
  import opened Basics

  /** The three files of a table. A missing file and an empty one are read alike. */
  datatype Disk = Disk(snapshot: Bytes, tmp: Bytes, log: Bytes)

  /** The outcome of std::getline; atEnd says that it met end of file before a newline, after
      which the stream has failed and reading stops. */
  datatype Line = Line(text: Bytes, rest: Bytes, atEnd: bool)

  function GetLine(s: Bytes): (l: Line)
    ensures l.atEnd ==> l.text == s && l.rest == []
    ensures !l.atEnd ==> s == l.text + [NEWLINE] + l.rest
    ensures NEWLINE !in l.text
  {
    if s == [] then Line([], [], true)
    else if s[0] == NEWLINE then Line([], s[1..], false)
    else
      var l := GetLine(s[1..]);
      Line([s[0]] + l.text, l.rest, l.atEnd)
  }

  lemma {:induction false} GetLineOf(text: Bytes, rest: Bytes)
    requires NEWLINE !in text
    ensures GetLine(text + [NEWLINE] + rest) == Line(text, rest, false)
    ensures GetLine(text) == Line(text, [], true)
  {
    var s := text + [NEWLINE] + rest;
    if text == [] {
    } else {
      GetLineOf(text[1..], rest);
      assert s[1..] == text[1..] + [NEWLINE] + rest;
    }
  }

  /** A parse result with records in front; None is a failed assert(false), which ends the process. */
  function Then<T>(front: seq<T>, result: Option<seq<T>>): Option<seq<T>>
  {
    match result
    case None => None
    case Some(rs) => Some(front + rs)
  }

  lemma ThenNothing<T>(result: Option<seq<T>>)
    ensures Then([], result) == result
  {
    match result
    case None =>
    case Some(rs) => assert [] + rs == rs;
  }

  lemma ThenThen<T>(a: seq<T>, b: seq<T>, result: Option<seq<T>>)
    ensures Then(a, Then(b, result)) == Then(a + b, result)
  {
    match result
    case None =>
    case Some(rs) => assert a + (b + rs) == (a + b) + rs;
  }
}

/** The text format of the is_dirty files: 64 hex digits, a space, a flag, a newline. */
module DirtyCodec {
  import opened Basics
  import opened Hashing
  import opened Files
  import opened Replay

  const CLEAN: byte := 48
  const DIRTY: byte := 49
  const ERASE: byte := 50

  ghost predicate Printable(rs: seq<Rec<bool>>)
  {
    forall r :: r in rs ==> |r.key| == NAME_LENGTH && NEWLINE !in r.key
  }

  function Flag(r: Rec<bool>): byte
  {
    match r
    case Put(_, state) => if state then DIRTY else CLEAN
    case Del(_) => ERASE
  }

  function PrintOne(r: Rec<bool>): Bytes
  {
    r.key + [SPACE, Flag(r), NEWLINE]
  }

  function Print(rs: seq<Rec<bool>>): Bytes
  {
    if rs == [] then [] else Print(rs[..|rs| - 1]) + PrintOne(rs[|rs| - 1])
  }

  /** The record a 66-byte line stands for. A line with another flag is reported and skipped. */
  function LineRecords(text: Bytes): seq<Rec<bool>>
    requires |text| == NAME_LENGTH + 2
  {
    var key, flag := text[..NAME_LENGTH], text[NAME_LENGTH + 1];
    if flag == ERASE then [Del(key)]
    else if flag == DIRTY then [Put(key, true)]
    else if flag == CLEAN then [Put(key, false)]
    else []
  }

  /** The records the reading loop applies to the table. */
  function Parse(s: Bytes): Option<seq<Rec<bool>>>
    decreases |s|
  {
    if s == [] then Some([])
    else
      var l := GetLine(s);
      if |l.text| != NAME_LENGTH + 2 then None
      else if l.atEnd then Some(LineRecords(l.text))
      else Then(LineRecords(l.text), Parse(l.rest))
  }

  lemma ParseOne(r: Rec<bool>, rest: Bytes)
    requires Printable([r])
    ensures Parse(PrintOne(r) + rest) == Then([r], Parse(rest))
  {
    assert r in [r];
    var text := r.key + [SPACE, Flag(r)];
    assert PrintOne(r) + rest == text + [NEWLINE] + rest;
    GetLineOf(text, rest);
    assert text[..NAME_LENGTH] == r.key;
  }

  lemma PrintLast(rs: seq<Rec<bool>>, rest: Bytes)
    requires rs != []
    ensures Print(rs) + rest == Print(rs[..|rs| - 1]) + (PrintOne(rs[|rs| - 1]) + rest)
  {
  }

  /** Printed records in front of any bytes are read back and the rest is read as if alone. */
  lemma {:induction false} ParsePrinted(rs: seq<Rec<bool>>, rest: Bytes)
    requires Printable(rs)
    ensures Parse(Print(rs) + rest) == Then(rs, Parse(rest))
  {
    hide Parse;
    if rs == [] {
      assert Print(rs) + rest == rest;
      ThenNothing(Parse(rest));
    } else {
      var front, last := rs[..|rs| - 1], rs[|rs| - 1];
      PrintLast(rs, rest);
      hide Print, PrintOne;
      ParsePrinted(front, PrintOne(last) + rest);
      ParseOne(last, rest);
      ThenThen(front, [last], Parse(rest));
      assert rs == front + [last];
    }
  }

  /** The codec round trip: reading what was printed gives the printed records. */
  lemma RoundTrip(rs: seq<Rec<bool>>)
    requires Printable(rs)
    ensures Parse(Print(rs)) == Some(rs)
  {
    ParsePrinted(rs, []);
    assert Print(rs) + [] == Print(rs);
    assert rs + [] == rs;
  }

  /** A log whose last append was cut short can be reloaded only if the cut lost everything or
      nothing but the final newline: the format relies on each record being appended whole. */
  lemma TornAppendReloadsIff(rs: seq<Rec<bool>>, r: Rec<bool>, n: nat)
    requires Printable(rs) && Printable([r])
    requires n < |PrintOne(r)|
    ensures Parse(Print(rs) + PrintOne(r)[..n])
         == if n == 0 then Some(rs) else if n == NAME_LENGTH + 2 then Some(rs + [r]) else None
  {
    hide Print, Parse, PrintOne;
    ParsePrinted(rs, PrintOne(r)[..n]);
    TornRecord(r, n);
    assert rs + [] == rs;
  }

  lemma TornRecord(r: Rec<bool>, n: nat)
    requires Printable([r]) && n < |PrintOne(r)|
    ensures Parse(PrintOne(r)[..n]) == if n == 0 then Some([]) else if n == NAME_LENGTH + 2 then Some([r]) else None
  {
    assert r in [r];
    var text := r.key + [SPACE, Flag(r)];
    assert PrintOne(r)[..n] == text[..n];
    GetLineOf(text[..n], []);
    if n == NAME_LENGTH + 2 {
      assert text[..n] == text && text[..NAME_LENGTH] == r.key;
    }
  }

  /** The bytes of a record: the name, a space, '0' for clean, '1' for dirty, '2' for erased, a
      newline. */
  lemma PrintedBytes(k: Bytes)
    ensures PrintOne(Put(k, false)) == k + Ascii(" 0\n")
    ensures PrintOne(Put(k, true)) == k + Ascii(" 1\n")
    ensures PrintOne(Del(k)) == k + Ascii(" 2\n")
  {
  }

  /** A line of the right length with any other flag is skipped; one of another length ends the
      process. */
  lemma OtherLines(text: Bytes, rest: Bytes)
    requires NEWLINE !in text
    requires |text| == 66 ==> text[65] as char !in "012"
    ensures Parse(text + [NEWLINE] + rest) == if |text| == 66 then Parse(rest) else None
  {
    GetLineOf(text, rest);
    if |text| == 66 {
      ThenNothing(Parse(rest));
    }
  }
}

/** The format of the last_modified files: 64 hex digits, a newline, 16 raw bytes, a newline. */
module StampCodec {
  import opened Basics
  import opened Hashing
  import opened Files

  /** sizeof(struct timespec). */
  const STAMP_LENGTH := 16
  const ERASED: Bytes := [255, 255, 255, 255, 255, 255, 255, 255, 255, 255, 255, 255, 255, 255, 255, 255]
  const ZEROS: Bytes := [0, 0, 0, 0, 0, 0, 0, 0, 0, 0, 0, 0, 0, 0, 0, 0]
  /** LOCAL_CREAT_FILE, the 22 bytes of "locally_generated_file". */
  const LOCAL: Bytes := [108, 111, 99, 97, 108, 108, 121, 95, 103, 101, 110, 101, 114, 97, 116, 101,
                         100, 95, 102, 105, 108, 101]

  datatype Entry = Entry(key: Bytes, value: Bytes)

  ghost predicate Printable(es: seq<Entry>)
  {
    forall e :: e in es ==>
      |e.key| == NAME_LENGTH && NEWLINE !in e.key && |e.value| == STAMP_LENGTH
  }

  /** The values the client stores: 16-byte timestamps and the mark of a local file. */
  predicate IsValue(v: Bytes)
  {
    |v| == STAMP_LENGTH || v == LOCAL
  }

  ghost predicate Stored(es: seq<Entry>)
  {
    forall e :: e in es ==> |e.key| == NAME_LENGTH && NEWLINE !in e.key && IsValue(e.value)
  }

  function PrintOne(e: Entry): Bytes
  {
    e.key + [NEWLINE] + e.value + [NEWLINE]
  }

  function Print(es: seq<Entry>): Bytes
  {
    if es == [] then [] else Print(es[..|es| - 1]) + PrintOne(es[|es| - 1])
  }

  /** The value left in the read buffer after some entries were read. */
  function LastValue(es: seq<Entry>, buffer: Bytes): Bytes
  {
    if es == [] then buffer else es[|es| - 1].value
  }

  /** The reading loop. `buffer` is the 16-byte buffer the values are read into: a read that meets
      end of file leaves the bytes it did not reach as they were. */
  function Parse(s: Bytes, buffer: Bytes): Option<seq<Entry>>
    requires |buffer| == STAMP_LENGTH
    decreases |s|
  {
    if s == [] then Some([])
    else
      var l := GetLine(s);
      if |l.text| != NAME_LENGTH then None
      else if l.atEnd then Some([Entry(l.text, buffer)])
      else if |l.rest| < STAMP_LENGTH then Some([Entry(l.text, l.rest + buffer[|l.rest|..])])
      else
        var value := l.rest[..STAMP_LENGTH];
        if |l.rest| == STAMP_LENGTH then Some([Entry(l.text, value)])
        else Then([Entry(l.text, value)], Parse(l.rest[STAMP_LENGTH + 1..], value))
  }

  /** A key line followed by at least a value and the byte after it. */
  lemma ParseKey(key: Bytes, tail: Bytes, buffer: Bytes)
    requires |key| == NAME_LENGTH && NEWLINE !in key && |buffer| == STAMP_LENGTH && |tail| > STAMP_LENGTH
    ensures Parse(key + [NEWLINE] + tail, buffer)
            == Then([Entry(key, tail[..STAMP_LENGTH])], Parse(tail[STAMP_LENGTH + 1..], tail[..STAMP_LENGTH]))
  {
    GetLineOf(key, tail);
  }

  /** A line of the wrong length where a key is expected. */
  lemma ParseOther(text: Bytes, rest: Bytes, buffer: Bytes)
    requires |text| != NAME_LENGTH && NEWLINE !in text && |buffer| == STAMP_LENGTH
    ensures Parse(text + [NEWLINE] + rest, buffer) == None
  {
    GetLineOf(text, rest);
  }

  lemma ParseOne(e: Entry, rest: Bytes, buffer: Bytes)
    requires Printable([e]) && |buffer| == STAMP_LENGTH
    ensures Parse(PrintOne(e) + rest, buffer) == Then([e], Parse(rest, e.value))
  {
    assert e in [e];
    var tail := e.value + [NEWLINE] + rest;
    assert PrintOne(e) + rest == e.key + [NEWLINE] + tail;
    ParseKey(e.key, tail, buffer);
    assert tail[..STAMP_LENGTH] == e.value;
    assert tail[STAMP_LENGTH + 1..] == rest;
  }

  lemma PrintLast(es: seq<Entry>, rest: Bytes)
    requires es != []
    ensures Print(es) + rest == Print(es[..|es| - 1]) + (PrintOne(es[|es| - 1]) + rest)
  {
  }

  lemma {:induction false} ParsePrinted(es: seq<Entry>, rest: Bytes, buffer: Bytes)
    requires Printable(es) && |buffer| == STAMP_LENGTH
    ensures |LastValue(es, buffer)| == STAMP_LENGTH
    ensures Parse(Print(es) + rest, buffer) == Then(es, Parse(rest, LastValue(es, buffer)))
  {
    hide Parse, PrintOne, Then;
    if es == [] {
      assert Print(es) + rest == rest;
      ThenNothing(Parse(rest, buffer));
    } else {
      var front, last := es[..|es| - 1], es[|es| - 1];
      PrintLast(es, rest);
      hide Print;
      ParsePrinted(front, PrintOne(last) + rest, buffer);
      ParseOne(last, rest, LastValue(front, buffer));
      ThenThen(front, [last], Parse(rest, last.value));
      assert es == front + [last];
    }
  }

  /** The codec round trip, for sixteen arbitrary bytes a value: newlines may be among them. */
  lemma RoundTrip(es: seq<Entry>, buffer: Bytes)
    requires Printable(es) && |buffer| == STAMP_LENGTH
    ensures Parse(Print(es), buffer) == Some(es)
  {
    ParsePrinted(es, [], buffer);
    assert Print(es) + [] == Print(es);
    assert es + [] == es;
  }

  /** The value of a file created locally is not 16 bytes long: wherever such a record stands, the
      next start of the client ends in assert(false). */
  lemma LocalRecordAborts(es: seq<Entry>, key: Bytes, rest: Bytes, buffer: Bytes)
    requires Printable(es) && |buffer| == STAMP_LENGTH
    requires |key| == NAME_LENGTH && NEWLINE !in key
    ensures Parse(Print(es) + PrintOne(Entry(key, LOCAL)) + rest, buffer) == None
  {
    hide Parse, Print;
    var record := PrintOne(Entry(key, LOCAL));
    var tail := LOCAL + [NEWLINE] + rest;
    var after := LOCAL[STAMP_LENGTH + 1..];
    assert Print(es) + record + rest == Print(es) + (record + rest);
    ParsePrinted(es, record + rest, buffer);
    assert record + rest == key + [NEWLINE] + tail;
    ParseKey(key, tail, LastValue(es, buffer));
    assert tail[STAMP_LENGTH + 1..] == after + [NEWLINE] + rest;
    ParseOther(after, rest, tail[..STAMP_LENGTH]);
  }

  /** The entries that were printed, whether or not the program can read them back: the byte after
      the sixteenth one of a value tells the two lengths apart. */
  function Scan(s: Bytes): seq<Entry>
    decreases |s|
  {
    var n := if |s| > NAME_LENGTH + 1 + STAMP_LENGTH && s[NAME_LENGTH + 1 + STAMP_LENGTH] == NEWLINE then STAMP_LENGTH else |LOCAL|;
    if |s| < NAME_LENGTH + n + 2 then []
    else [Entry(s[..NAME_LENGTH], s[NAME_LENGTH + 1..NAME_LENGTH + 1 + n])] + Scan(s[NAME_LENGTH + n + 2..])
  }

  lemma ScanOne(e: Entry, rest: Bytes)
    requires Stored([e])
    ensures Scan(PrintOne(e) + rest) == [e] + Scan(rest)
  {
    assert e in [e];
    var s := PrintOne(e) + rest;
    var n := |e.value|;
    assert s == e.key + [NEWLINE] + (e.value + [NEWLINE] + rest);
    assert s[..NAME_LENGTH] == e.key && s[NAME_LENGTH + 1..NAME_LENGTH + 1 + n] == e.value;
    assert s[NAME_LENGTH + n + 2..] == rest;
    assert s[NAME_LENGTH + 1 + STAMP_LENGTH] == (e.value + [NEWLINE])[STAMP_LENGTH];
  }

  lemma {:induction false} ScanPrinted(es: seq<Entry>, rest: Bytes)
    requires Stored(es)
    ensures Scan(Print(es) + rest) == es + Scan(rest)
  {
    hide Scan, PrintOne;
    if es == [] {
      assert Print(es) + rest == rest && es + Scan(rest) == Scan(rest);
    } else {
      var front, last := es[..|es| - 1], es[|es| - 1];
      PrintLast(es, rest);
      ScanPrinted(front, PrintOne(last) + rest);
      ScanOne(last, rest);
      assert es == front + [last];
      assert front + ([last] + Scan(rest)) == es + Scan(rest);
    }
  }

  lemma ScanRoundTrip(es: seq<Entry>)
    requires Stored(es)
    ensures Scan(Print(es)) == es
  {
    ScanPrinted(es, []);
    assert Print(es) + [] == Print(es) && es + [] == es;
  }

  lemma {:induction false} LocalAborts(es: seq<Entry>, rest: Bytes, buffer: Bytes)
    requires Stored(es) && !Printable(es) && |buffer| == STAMP_LENGTH
    ensures Parse(Print(es) + rest, buffer) == None
  {
    hide Parse, PrintOne;
    var front, last := es[..|es| - 1], es[|es| - 1];
    assert Print(es) + rest == Print(front) + PrintOne(last) + rest;
    if Printable(front) {
      assert es == front + [last] && last in es;
      assert last == Entry(last.key, LOCAL);
      LocalRecordAborts(front, last.key, rest, buffer);
    } else {
      assert Print(front) + PrintOne(last) + rest == Print(front) + (PrintOne(last) + rest);
      LocalAborts(front, PrintOne(last) + rest, buffer);
    }
  }

  /** A file of stored values can be read if and only if no local mark is among them. */
  lemma ReadsIff(es: seq<Entry>, buffer: Bytes)
    requires Stored(es) && |buffer| == STAMP_LENGTH
    ensures Parse(Print(es), buffer) == if Printable(es) then Some(es) else None
  {
    if Printable(es) {
      RoundTrip(es, buffer);
    } else {
      LocalAborts(es, [], buffer);
      assert Print(es) + [] == Print(es);
    }
  }

  /** The bytes of a record: the name, a newline, the value, a newline; and the two values with a
      meaning of their own. */
  lemma PrintedBytes(e: Entry)
    ensures PrintOne(e) == e.key + Ascii("\n") + e.value + Ascii("\n")
    ensures LOCAL == Ascii("locally_generated_file")
    ensures |ERASED| == 16 && forall i :: 0 <= i < 16 ==> ERASED[i] == 0xFF
  {
  }

  /** What is read of a log whose last append was cut short: nothing if nothing was written, no log
      at all if part of the name was, and else the record, with as much of its value as was written
      and the bytes of the value read before it for the rest. */
  lemma TornAppendReads(es: seq<Entry>, e: Entry, n: nat, buffer: Bytes)
    requires Printable(es) && Printable([e]) && |buffer| == STAMP_LENGTH && n < |PrintOne(e)|
    ensures |LastValue(es, buffer)| == STAMP_LENGTH
    ensures Parse(Print(es) + PrintOne(e)[..n], buffer)
         == if n == 0 then Some(es) else if n < NAME_LENGTH then None
            else Some(es + [Entry(e.key, TornValue(e.value, LastValue(es, buffer), if n <= NAME_LENGTH then 0 else n - NAME_LENGTH - 1))])
  {
    hide Print;
    assert e in [e];
    ParsePrinted(es, PrintOne(e)[..n], buffer);
    TornRecord(e, n, LastValue(es, buffer));
    assert es + [] == es;
  }

  function TornValue(value: Bytes, before: Bytes, n: nat): Bytes
    requires n <= |value| && n <= |before|
  {
    value[..n] + before[n..]
  }

  lemma TornRecord(e: Entry, n: nat, buffer: Bytes)
    requires Printable([e]) && |buffer| == STAMP_LENGTH && n < |PrintOne(e)|
    ensures |e.value| == STAMP_LENGTH
    ensures Parse(PrintOne(e)[..n], buffer)
         == if n == 0 then Some([]) else if n < NAME_LENGTH then None
            else Some([Entry(e.key, TornValue(e.value, buffer, if n <= NAME_LENGTH then 0 else n - NAME_LENGTH - 1))])
  {
    assert e in [e];
    var torn := PrintOne(e)[..n];
    if n <= NAME_LENGTH {
      assert torn == e.key[..n];
      GetLineOf(torn, []);
      assert n == NAME_LENGTH ==> torn == e.key;
      assert TornValue(e.value, buffer, 0) == buffer;
    } else {
      TornInValue(e, n - NAME_LENGTH - 1, buffer);
      assert torn == e.key + [NEWLINE] + e.value[..n - NAME_LENGTH - 1];
    }
  }

  lemma TornInValue(e: Entry, m: nat, buffer: Bytes)
    requires Printable([e]) && |buffer| == STAMP_LENGTH && m <= |e.value| == STAMP_LENGTH
    ensures Parse(e.key + [NEWLINE] + e.value[..m], buffer) == Some([Entry(e.key, TornValue(e.value, buffer, m))])
  {
    assert e in [e];
    GetLineOf(e.key, e.value[..m]);
    if m == STAMP_LENGTH {
      assert e.value[..m] == e.value && TornValue(e.value, buffer, m) == e.value;
    }
  }

  /** A record is flushed after its key and again after its value. If only the key reached the
      log, the next start gives that key the value of the record before it ... */
  lemma TornAppendReusesValue(es: seq<Entry>, key: Bytes, buffer: Bytes)
    requires Printable(es) && |buffer| == STAMP_LENGTH
    requires |key| == NAME_LENGTH && NEWLINE !in key
    ensures Parse(Print(es) + (key + [NEWLINE]), buffer) == Some(es + [Entry(key, LastValue(es, buffer))])
  {
    hide Print;
    var value := LastValue(es, buffer);
    ParsePrinted(es, key + [NEWLINE], buffer);
    GetLineOf(key, []);
    assert key + [NEWLINE] + [] == key + [NEWLINE];
    assert [] + value[0..] == value;
  }

  /** ... and once that process has logged anything, no later start succeeds. */
  lemma TornAppendAborts(es: seq<Entry>, key: Bytes, next: Entry, rest: Bytes, buffer: Bytes)
    requires Printable(es) && Printable([next]) && |buffer| == STAMP_LENGTH
    requires |key| == NAME_LENGTH && NEWLINE !in key
    ensures Parse(Print(es) + (key + [NEWLINE]) + PrintOne(next) + rest, buffer) == None
  {
    hide Parse, Print;
    assert next in [next];
    var tail := PrintOne(next) + rest;
    var after := next.key[STAMP_LENGTH + 1..];
    assert Print(es) + (key + [NEWLINE]) + PrintOne(next) + rest == Print(es) + (key + [NEWLINE] + tail);
    ParsePrinted(es, key + [NEWLINE] + tail, buffer);
    ParseKey(key, tail, LastValue(es, buffer));
    assert tail[STAMP_LENGTH + 1..] == after + [NEWLINE] + (next.value + [NEWLINE] + rest);
    ParseOther(after, next.value + [NEWLINE] + rest, tail[..STAMP_LENGTH]);
  }
}
