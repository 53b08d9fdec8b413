/** Calendar events and to-dos (RFC 5545): the printers, the parsers, and exactly which entries survive both. */
module ICalendar {
  import opened Wrappers
  import opened TextCodec
  import opened PropertyLines
  import opened CalendarTime

  datatype Entry =
    | Event(uid: string, summary: string, start: Option<DateTime>, end: Option<DateTime>,
            location: Option<string>, description: Option<string>, extra: seq<string>)
    | Todo(uid: string, summary: string, due: Option<DateTime>, completed: Option<DateTime>,
           description: Option<string>, extra: seq<string>)

  predicate ValidTime(o: Option<DateTime>) {
    o.Some? ==> Valid(o.value)
  }

  predicate ValidEntry(e: Entry) {
    && Utf8(e.uid) && Utf8(e.summary) && IsText(e.description) && Texts(e.extra)
    && match e
       case Event(_, _, start, end, location, _, _) => ValidTime(start) && ValidTime(end) && IsText(location)
       case Todo(_, _, due, completed, _, _) => ValidTime(due) && ValidTime(completed)
  }

  function KindOf(e: Entry): string {
    if e.Event? then "VEVENT" else "VTODO"
  }

  // The program's default value of the entry's type.
  function Default(e: Entry): Entry {
    if e.Event? then Event("", "", None, None, None, None, []) else Todo("", "", None, None, None, [])
  }

  // ---- The printers ----

  function TimeLine(name: string, o: Option<DateTime>): seq<string>
    requires ValidTime(o)
  {
    if o.Some? then [name + ":" + Format(o.value)] else []
  }

  function CompletedLines(o: Option<DateTime>): seq<string>
    requires ValidTime(o)
  {
    if o.Some? then ["COMPLETED" + ":" + Format(o.value), "STATUS" + ":" + "COMPLETED", "PERCENT-COMPLETE" + ":" + "100"] else []
  }

  function FirstFields(e: Entry, newId: string, now: DateTime): seq<string>
    requires Valid(now)
  {
    [Field("UID", UidOf(e.uid, newId)), "DTSTAMP" + ":" + Format(now), Field("SUMMARY", e.summary)]
  }

  function TimeFields(e: Entry): seq<string>
    requires ValidEntry(e)
  {
    match e
    case Event(_, _, start, end, location, _, _) => TimeLine("DTSTART", start) + TimeLine("DTEND", end) + FieldOf("LOCATION", location)
    case Todo(_, _, due, completed, _, _) => TimeLine("DUE", due) + CompletedLines(completed)
  }

  function FieldLines(e: Entry, newId: string, now: DateTime): seq<string>
    requires ValidEntry(e) && Valid(now)
  {
    FirstFields(e, newId, now) + TimeFields(e) + FieldOf("DESCRIPTION", e.description)
  }

  const PRODID := "-//Keeplin//Keeplin//EN"

  function Opening(kind: string): seq<string> {
    ["BEGIN" + ":" + "VCALENDAR", "VERSION" + ":" + "2.0", "PRODID" + ":" + PRODID, "BEGIN" + ":" + kind]
  }

  function Closing(kind: string): seq<string> {
    ["END" + ":" + kind, "END" + ":" + "VCALENDAR"]
  }

  function EntryLines(e: Entry, newId: string, now: DateTime): seq<string>
    requires ValidEntry(e) && Valid(now)
  {
    Opening(KindOf(e)) + FieldLines(e, newId, now) + e.extra + Closing(KindOf(e))
  }

  // ---- The parsers ----

  predicate IsMark(kind: string, p: Property) {
    (p.name == "BEGIN" || p.name == "END") && Upper(p.value) == kind
  }

  // The components found so far, and the open one.
  datatype Split = Split(out: seq<seq<string>>, current: Option<seq<string>>)

  function SplitLine(s: Split, kind: string, line: string): Split {
    match SplitProp(line)
    case None => s
    case Some(p) =>
      if p.name == "BEGIN" && Upper(p.value) == kind then s.(current := Some([]))
      else if p.name == "END" && Upper(p.value) == kind then
        Split(if s.current.Some? then s.out + [s.current.value] else s.out, None)
      else if s.current.Some? then s.(current := Some(s.current.value + [line]))
      else s
  }

  function SplitAll(s: Split, kind: string, lines: seq<string>): Split {
    if lines == [] then s else SplitLine(SplitAll(s, kind, lines[..|lines| - 1]), kind, lines[|lines| - 1])
  }

  function Components(lines: seq<string>, kind: string): seq<seq<string>> {
    var s := SplitAll(Split([], None), kind, lines);
    if s.current.Some? then s.out + [s.current.value] else s.out
  }

  function TakeProperty(e: Entry, name: string, value: string, line: string): Entry {
    match e
    case Event(_, _, _, _, _, _, extra) =>
      if name == "UID" then e.(uid := Unescape(value))
      else if name == "SUMMARY" then e.(summary := Unescape(value))
      else if name == "DTSTART" then e.(start := Parse(value))
      else if name == "DTEND" then e.(end := Parse(value))
      else if name == "LOCATION" then e.(location := Some(Unescape(value)))
      else if name == "DESCRIPTION" then e.(description := Some(Unescape(value)))
      else if name == "DTSTAMP" then e
      else e.(extra := extra + [line])
    case Todo(_, _, _, _, _, extra) =>
      if name == "UID" then e.(uid := Unescape(value))
      else if name == "SUMMARY" then e.(summary := Unescape(value))
      else if name == "DUE" then e.(due := Parse(value))
      else if name == "COMPLETED" then e.(completed := Parse(value))
      else if name == "DESCRIPTION" then e.(description := Some(Unescape(value)))
      else if name == "STATUS" || name == "PERCENT-COMPLETE" || name == "DTSTAMP" then e
      else e.(extra := extra + [line])
  }

  function TakeLine(e: Entry, line: string): Entry {
    match SplitProp(line)
    case None => e
    case Some(p) => TakeProperty(e, p.name, p.value, line)
  }

  function TakeAll(e: Entry, lines: seq<string>): Entry {
    if lines == [] then e else TakeLine(TakeAll(e, lines[..|lines| - 1]), lines[|lines| - 1])
  }

  // The first component of the kind, if there is one.
  function ParsedLines(blank: Entry, lines: seq<string>): Option<Entry> {
    var components := Components(lines, KindOf(blank));
    if components == [] then None else Some(TakeAll(blank, components[0]))
  }

  function FromIcs(blank: Entry, input: string): Option<Entry> {
    ParsedLines(blank, Unfolded(input))
  }

  // ---- What the parser makes of a line ----

  predicate KnownName(e: Entry, name: string) {
    || name == "UID" || name == "SUMMARY" || name == "DESCRIPTION" || name == "DTSTAMP"
    || (e.Event? && (name == "DTSTART" || name == "DTEND" || name == "LOCATION"))
    || (e.Todo? && (name == "DUE" || name == "COMPLETED" || name == "STATUS" || name == "PERCENT-COMPLETE"))
  }

  predicate Named(e: Entry, line: string) {
    SplitProp(line).Some? && KnownName(e, SplitProp(line).value.name)
  }

  predicate AllNamed(e: Entry, lines: seq<string>) {
    forall line <- lines :: Named(e, line)
  }

  // A line that is kept as it is.
  predicate Kept(e: Entry, line: string) {
    SplitProp(line).Some? && !KnownName(e, SplitProp(line).value.name) && !IsMark(KindOf(e), SplitProp(line).value)
  }

  function KeptCount(e: Entry, lines: seq<string>): nat {
    if lines == [] then 0 else KeptCount(e, lines[..|lines| - 1]) + if Kept(e, lines[|lines| - 1]) then 1 else 0
  }

  lemma {:induction false} KeptCountConcat(e: Entry, a: seq<string>, b: seq<string>)
    ensures KeptCount(e, a + b) == KeptCount(e, a) + KeptCount(e, b)
  {
    if b == [] {
      assert a + b == a;
    } else {
      assert (a + b)[..|a + b| - 1] == a + b[..|b| - 1];
      KeptCountConcat(e, a, b[..|b| - 1]);
    }
  }

  predicate AllKept(e: Entry, lines: seq<string>) {
    forall line <- lines :: Kept(e, line)
  }

  lemma {:induction false} KeptCountBound(e: Entry, lines: seq<string>)
    ensures KeptCount(e, lines) <= |lines|
    ensures KeptCount(e, lines) == |lines| ==> AllKept(e, lines)
  {
    if lines != [] {
      var front, last := lines[..|lines| - 1], lines[|lines| - 1];
      KeptCountBound(e, front);
      assert lines == front + [last];
      if KeptCount(e, lines) == |lines| {
        assert Kept(e, last) && AllKept(e, front);
        forall line <- lines ensures Kept(e, line) {
          assert line in front || line == last;
        }
      }
    }
  }

  lemma {:induction false} NamedAreNotKept(e: Entry, lines: seq<string>)
    requires AllNamed(e, lines)
    ensures KeptCount(e, lines) == 0
  {
    if lines != [] {
      var front, last := lines[..|lines| - 1], lines[|lines| - 1];
      assert last in lines;
      assert AllNamed(e, front);
      NamedAreNotKept(e, front);
      assert Named(e, last);
    }
  }

  lemma {:induction false} SplitInTurn(s: Split, kind: string, a: seq<string>, b: seq<string>)
    ensures SplitAll(s, kind, a + b) == SplitAll(SplitAll(s, kind, a), kind, b)
  {
    if b == [] {
      assert a + b == a;
    } else {
      assert (a + b)[..|a + b| - 1] == a + b[..|b| - 1];
      SplitInTurn(s, kind, a, b[..|b| - 1]);
    }
  }

  // The component that will be first, as far as it is known.
  function First(s: Split): seq<string> {
    if s.out != [] then s.out[0] else if s.current.Some? then s.current.value else []
  }

  predicate NoMarks(kind: string, lines: seq<string>) {
    forall line <- lines :: SplitProp(line).Some? && !IsMark(kind, SplitProp(line).value)
  }

  predicate Unmarked(kind: string, s: Split) {
    && (forall c <- s.out :: NoMarks(kind, c))
    && (s.current.Some? ==> NoMarks(kind, s.current.value))
  }

  lemma SplitLineCount(e: Entry, s: Split, line: string)
    requires Unmarked(KindOf(e), s)
    ensures Unmarked(KindOf(e), SplitLine(s, KindOf(e), line))
    ensures KeptCount(e, First(SplitLine(s, KindOf(e), line))) <= KeptCount(e, First(s)) + if Kept(e, line) then 1 else 0
    ensures First(SplitLine(s, KindOf(e), line)) in [First(s), [], First(s) + [line]]
  {
    if s.current.Some? {
      KeptCountConcat(e, s.current.value, [line]);
      assert [line][..0] == [];
    }
  }

  // However a component comes about, its kept lines were kept lines of the input.
  lemma {:induction false} SplitAllCount(e: Entry, s: Split, lines: seq<string>)
    requires Unmarked(KindOf(e), s)
    ensures Unmarked(KindOf(e), SplitAll(s, KindOf(e), lines))
    ensures KeptCount(e, First(SplitAll(s, KindOf(e), lines))) <= KeptCount(e, First(s)) + KeptCount(e, lines)
    ensures forall x <- First(SplitAll(s, KindOf(e), lines)) :: x in First(s) || x in lines
  {
    if lines != [] {
      var front, last := lines[..|lines| - 1], lines[|lines| - 1];
      var before, after := SplitAll(s, KindOf(e), front), SplitAll(s, KindOf(e), lines);
      SplitAllCount(e, s, front);
      SplitLineCount(e, before, last);
      forall x <- First(after) ensures x in First(s) || x in lines {
        assert x in First(before) || x == last;
      }
    }
  }

  lemma TakeExtraLine(e: Entry, f: Entry, line: string)
    requires KindOf(e) == KindOf(f) && SplitProp(line).Some? && !IsMark(KindOf(e), SplitProp(line).value)
    ensures KindOf(TakeLine(f, line)) == KindOf(e)
    ensures TakeLine(f, line).extra == if Kept(e, line) then f.extra + [line] else f.extra
  {
  }

  // The extra lines of an entry are the kept lines of its component.
  lemma {:induction false} TakeExtras(e: Entry, lines: seq<string>)
    requires NoMarks(KindOf(e), lines)
    ensures KindOf(TakeAll(e, lines)) == KindOf(e)
    ensures |TakeAll(e, lines).extra| == |e.extra| + KeptCount(e, lines)
    ensures forall x <- TakeAll(e, lines).extra :: x in e.extra || x in lines
  {
    if lines != [] {
      var front, last := lines[..|lines| - 1], lines[|lines| - 1];
      assert lines == front + [last];
      assert NoMarks(KindOf(e), front) && SplitProp(last).Some? && !IsMark(KindOf(e), SplitProp(last).value) by {
        assert last in lines;
      }
      TakeExtras(e, front);
      var f := TakeAll(e, front);
      TakeExtraLine(e, f, last);
      assert TakeAll(e, lines) == TakeLine(f, last);
    }
  }

  // ---- What a printed entry reads back as ----

  function WholeSecond(o: Option<DateTime>): Option<DateTime> {
    if o.Some? then Some(o.value.(nanos := 0)) else None
  }

  function Back(e: Entry, newId: string): Entry {
    match e
    case Event(uid, summary, start, end, location, description, _) =>
      Event(WithoutCr(UidOf(uid, newId)), WithoutCr(summary), WholeSecond(start), WholeSecond(end),
            WithoutCrOf(location), WithoutCrOf(description), [])
    case Todo(uid, summary, due, completed, description, _) =>
      Todo(WithoutCr(UidOf(uid, newId)), WithoutCr(summary), WholeSecond(due), WholeSecond(completed), WithoutCrOf(description), [])
  }

  lemma {:induction false} TakeInTurn(e: Entry, a: seq<string>, b: seq<string>)
    ensures TakeAll(e, a + b) == TakeAll(TakeAll(e, a), b)
  {
    if b == [] {
      assert a + b == a;
    } else {
      assert (a + b)[..|a + b| - 1] == a + b[..|b| - 1];
      TakeInTurn(e, a, b[..|b| - 1]);
    }
  }

  lemma TakeOne(e: Entry, line: string)
    ensures TakeAll(e, [line]) == TakeLine(e, line)
  {
    assert [line][..0] == [];
    assert TakeAll(e, []) == e;
  }

  lemma TakeThree(e: Entry, a: string, b: string, c: string)
    ensures TakeAll(e, [a, b, c]) == TakeLine(TakeLine(TakeLine(e, a), b), c)
  {
    TakeOne(e, a);
    assert [a, b][..1] == [a] && [a, b, c][..2] == [a, b];
  }

  lemma TakeField(e: Entry, name: string, value: string)
    requires PlainName(name) && KnownName(e, name)
    ensures TakeLine(e, name + ":" + value) == TakeProperty(e, name, value, name + ":" + value) && Named(e, name + ":" + value)
  {
    SplitPlain(name, value);
  }

  lemma TakeUid(e: Entry, value: string)
    ensures TakeLine(e, Field("UID", value)) == e.(uid := WithoutCr(value)) && Named(e, Field("UID", value))
  {
    TakeField(e, "UID", Escape(value));
    UnescapeEscape(value);
  }

  lemma TakeSummary(e: Entry, value: string)
    ensures TakeLine(e, Field("SUMMARY", value)) == e.(summary := WithoutCr(value)) && Named(e, Field("SUMMARY", value))
  {
    TakeField(e, "SUMMARY", Escape(value));
    UnescapeEscape(value);
  }

  lemma TakeDescription(e: Entry, o: Option<string>)
    requires e.description.None?
    ensures TakeAll(e, FieldOf("DESCRIPTION", o)) == e.(description := WithoutCrOf(o))
    ensures AllNamed(e, FieldOf("DESCRIPTION", o))
  {
    if o.Some? {
      TakeField(e, "DESCRIPTION", Escape(o.value));
      UnescapeEscape(o.value);
      TakeOne(e, Field("DESCRIPTION", o.value));
    }
  }

  lemma TakeStamp(e: Entry, value: string)
    ensures TakeLine(e, "DTSTAMP" + ":" + value) == e && Named(e, "DTSTAMP" + ":" + value)
  {
    TakeField(e, "DTSTAMP", value);
  }

  lemma TakeFirstFields(e: Entry, c: Entry, newId: string, now: DateTime)
    requires Valid(now)
    ensures TakeAll(e, FirstFields(c, newId, now)) == e.(uid := WithoutCr(UidOf(c.uid, newId)), summary := WithoutCr(c.summary))
    ensures AllNamed(e, FirstFields(c, newId, now))
  {
    var uid := UidOf(c.uid, newId);
    var a, b, d := Field("UID", uid), "DTSTAMP" + ":" + Format(now), Field("SUMMARY", c.summary);
    TakeUid(e, uid);
    var f := e.(uid := WithoutCr(uid));
    TakeStamp(f, Format(now));
    TakeStamp(e, Format(now));
    TakeSummary(f, c.summary);
    TakeSummary(e, c.summary);
    TakeThree(e, a, b, d);
    ThreeNamed(e, a, b, d);
  }

  lemma TakeStart(e: Entry, o: Option<DateTime>)
    requires e.Event? && e.start.None? && ValidTime(o)
    ensures TakeAll(e, TimeLine("DTSTART", o)) == e.(start := WholeSecond(o)) && AllNamed(e, TimeLine("DTSTART", o))
  {
    if o.Some? {
      ParseFormat(o.value);
      TakeField(e, "DTSTART", Format(o.value));
      TakeOne(e, "DTSTART" + ":" + Format(o.value));
    }
  }

  lemma TakeEnd(e: Entry, o: Option<DateTime>)
    requires e.Event? && e.end.None? && ValidTime(o)
    ensures TakeAll(e, TimeLine("DTEND", o)) == e.(end := WholeSecond(o)) && AllNamed(e, TimeLine("DTEND", o))
  {
    if o.Some? {
      ParseFormat(o.value);
      TakeField(e, "DTEND", Format(o.value));
      TakeOne(e, "DTEND" + ":" + Format(o.value));
    }
  }

  lemma TakeLocation(e: Entry, o: Option<string>)
    requires e.Event? && e.location.None?
    ensures TakeAll(e, FieldOf("LOCATION", o)) == e.(location := WithoutCrOf(o)) && AllNamed(e, FieldOf("LOCATION", o))
  {
    if o.Some? {
      TakeField(e, "LOCATION", Escape(o.value));
      UnescapeEscape(o.value);
      TakeOne(e, Field("LOCATION", o.value));
    }
  }

  lemma TakeDue(e: Entry, o: Option<DateTime>)
    requires e.Todo? && e.due.None? && ValidTime(o)
    ensures TakeAll(e, TimeLine("DUE", o)) == e.(due := WholeSecond(o)) && AllNamed(e, TimeLine("DUE", o))
  {
    if o.Some? {
      ParseFormat(o.value);
      TakeField(e, "DUE", Format(o.value));
      TakeOne(e, "DUE" + ":" + Format(o.value));
    }
  }

  lemma TakeStatus(e: Entry, value: string)
    requires e.Todo?
    ensures TakeLine(e, "STATUS" + ":" + value) == e && Named(e, "STATUS" + ":" + value)
  {
    TakeField(e, "STATUS", value);
  }

  lemma TakePercent(e: Entry, value: string)
    requires e.Todo?
    ensures TakeLine(e, "PERCENT-COMPLETE" + ":" + value) == e && Named(e, "PERCENT-COMPLETE" + ":" + value)
  {
    assert PlainName("PERCENT-COMPLETE");
    TakeField(e, "PERCENT-COMPLETE", value);
  }

  lemma TakeCompletedTime(e: Entry, d: DateTime)
    requires e.Todo? && Valid(d)
    ensures TakeLine(e, "COMPLETED" + ":" + Format(d)) == e.(completed := Some(d.(nanos := 0)))
    ensures Named(e, "COMPLETED" + ":" + Format(d))
  {
    ParseFormat(d);
    TakeField(e, "COMPLETED", Format(d));
  }

  lemma ThreeNamed(e: Entry, a: string, b: string, c: string)
    requires Named(e, a) && Named(e, b) && Named(e, c)
    ensures AllNamed(e, [a, b, c])
  {
  }

  lemma TakeCompleted(e: Entry, o: Option<DateTime>)
    requires e.Todo? && e.completed.None? && ValidTime(o)
    ensures TakeAll(e, CompletedLines(o)) == e.(completed := WholeSecond(o)) && AllNamed(e, CompletedLines(o))
  {
    if o.Some? {
      var f := e.(completed := WholeSecond(o));
      var a, b, c := "COMPLETED" + ":" + Format(o.value), "STATUS" + ":" + "COMPLETED", "PERCENT-COMPLETE" + ":" + "100";
      TakeCompletedTime(e, o.value);
      TakeStatus(f, "COMPLETED");
      TakePercent(f, "100");
      TakeStatus(e, "COMPLETED");
      TakePercent(e, "100");
      TakeThree(e, a, b, c);
      ThreeNamed(e, a, b, c);
    }
  }

  lemma NamedConcat(e: Entry, a: seq<string>, b: seq<string>)
    requires AllNamed(e, a) && AllNamed(e, b)
    ensures AllNamed(e, a + b)
  {
  }

  lemma NamedByKind(e: Entry, f: Entry, lines: seq<string>)
    requires AllNamed(e, lines) && KindOf(e) == KindOf(f)
    ensures AllNamed(f, lines)
  {
  }

  lemma TakeTimeFields(e: Entry, c: Entry)
    requires ValidEntry(c) && KindOf(e) == KindOf(c)
    requires e == Default(c).(uid := e.uid, summary := e.summary)
    ensures TakeAll(e, TimeFields(c))
            == (match c
                case Event(_, _, start, end, location, _, _) => e.(start := WholeSecond(start), end := WholeSecond(end), location := WithoutCrOf(location))
                case Todo(_, _, due, completed, _, _) => e.(due := WholeSecond(due), completed := WholeSecond(completed)))
    ensures AllNamed(e, TimeFields(c))
  {
    match c {
      case Event(_, _, start, end, location, _, _) =>
        TakeStart(e, start);
        var f := e.(start := WholeSecond(start));
        TakeEnd(f, end);
        var g := f.(end := WholeSecond(end));
        TakeLocation(g, location);
        TakeInTurn(e, TimeLine("DTSTART", start), TimeLine("DTEND", end));
        TakeInTurn(e, TimeLine("DTSTART", start) + TimeLine("DTEND", end), FieldOf("LOCATION", location));
      case Todo(_, _, due, completed, _, _) =>
        TakeDue(e, due);
        TakeCompleted(e.(due := WholeSecond(due)), completed);
        TakeInTurn(e, TimeLine("DUE", due), CompletedLines(completed));
    }
  }

  lemma TakeFieldLines(c: Entry, newId: string, now: DateTime)
    requires ValidEntry(c) && Valid(now)
    ensures TakeAll(Default(c), FieldLines(c, newId, now)) == Back(c, newId)
    ensures AllNamed(c, FieldLines(c, newId, now))
  {
    var e := Default(c);
    var a, t, d := FirstFields(c, newId, now), TimeFields(c), FieldOf("DESCRIPTION", c.description);
    TakeFirstFields(e, c, newId, now);
    var f := TakeAll(e, a);
    TakeTimeFields(f, c);
    TakeInTurn(e, a, t);
    var g := TakeAll(f, t);
    TakeDescription(g, c.description);
    TakeInTurn(e, a + t, d);
    NamedByKind(e, c, a);
    NamedByKind(f, c, t);
    NamedByKind(g, c, d);
    NamedConcat(c, a, t);
    NamedConcat(c, a + t, d);
  }

  // ---- The printed lines are text, and stay apart when folded ----

  lemma DigitalIsText(name: string, d: DateTime)
    requires Valid(d) && Utf8(name + ":")
    ensures Utf8(name + ":" + Format(d))
  {
    ParseFormat(d);
    AsciiIsText(Format(d), 0);
    TextConcat(name + ":", Format(d));
  }

  lemma TimeLineIsText(name: string, o: Option<DateTime>)
    requires ValidTime(o) && Utf8(name + ":")
    ensures Texts(TimeLine(name, o))
  {
    if o.Some? {
      DigitalIsText(name, o.value);
    }
  }

  lemma TimeFieldsAreText(e: Entry)
    requires ValidEntry(e)
    ensures Texts(TimeFields(e))
  {
    match e {
      case Event(_, _, start, end, location, _, _) =>
        AsciiIsText("DTSTART" + ":", 0);
        AsciiIsText("DTEND" + ":", 0);
        AsciiIsText("LOCATION" + ":", 0);
        TimeLineIsText("DTSTART", start);
        TimeLineIsText("DTEND", end);
        FieldOfIsText("LOCATION", location);
        TextsConcat(TimeLine("DTSTART", start), TimeLine("DTEND", end));
        TextsConcat(TimeLine("DTSTART", start) + TimeLine("DTEND", end), FieldOf("LOCATION", location));
      case Todo(_, _, due, completed, _, _) =>
        AsciiIsText("DUE" + ":", 0);
        TimeLineIsText("DUE", due);
        CompletedIsText(completed);
        TextsConcat(TimeLine("DUE", due), CompletedLines(completed));
    }
  }

  lemma CompletedIsText(o: Option<DateTime>)
    requires ValidTime(o)
    ensures Texts(CompletedLines(o))
  {
    if o.Some? {
      AsciiIsText("COMPLETED" + ":", 0);
      DigitalIsText("COMPLETED", o.value);
      AsciiIsText("STATUS" + ":" + "COMPLETED", 0);
      AsciiIsText("PERCENT-COMPLETE" + ":" + "100", 0);
    }
  }

  lemma FirstFieldsAreText(e: Entry, newId: string, now: DateTime)
    requires ValidEntry(e) && Valid(now) && Utf8(newId)
    ensures Texts(FirstFields(e, newId, now))
  {
    AsciiIsText("UID" + ":", 0);
    AsciiIsText("DTSTAMP" + ":", 0);
    AsciiIsText("SUMMARY" + ":", 0);
    FieldIsText("UID", UidOf(e.uid, newId));
    DigitalIsText("DTSTAMP", now);
    FieldIsText("SUMMARY", e.summary);
  }

  lemma FieldLinesAreText(e: Entry, newId: string, now: DateTime)
    requires ValidEntry(e) && Valid(now) && Utf8(newId)
    ensures Texts(FieldLines(e, newId, now))
  {
    FirstFieldsAreText(e, newId, now);
    TimeFieldsAreText(e);
    AsciiIsText("DESCRIPTION" + ":", 0);
    FieldOfIsText("DESCRIPTION", e.description);
    TextsConcat(FirstFields(e, newId, now), TimeFields(e));
    TextsConcat(FirstFields(e, newId, now) + TimeFields(e), FieldOf("DESCRIPTION", e.description));
  }

  predicate IsKind(kind: string) {
    kind == "VEVENT" || kind == "VTODO"
  }

  lemma FrameIsText(kind: string)
    requires IsKind(kind)
    ensures Texts(Opening(kind)) && Texts(Closing(kind))
  {
    AsciiIsText("BEGIN" + ":" + "VCALENDAR", 0);
    AsciiIsText("VERSION" + ":" + "2.0", 0);
    AsciiIsText("PRODID" + ":" + PRODID, 0);
    AsciiIsText("BEGIN" + ":" + kind, 0);
    AsciiIsText("END" + ":" + kind, 0);
    AsciiIsText("END" + ":" + "VCALENDAR", 0);
  }

  lemma EntryLinesAreText(e: Entry, newId: string, now: DateTime)
    requires ValidEntry(e) && Valid(now) && Utf8(newId)
    ensures Texts(EntryLines(e, newId, now))
  {
    var a, b := Opening(KindOf(e)), FieldLines(e, newId, now);
    FrameIsText(KindOf(e));
    FieldLinesAreText(e, newId, now);
    TextsConcat(a, b);
    TextsConcat(a + b, e.extra);
    TextsConcat(a + b + e.extra, Closing(KindOf(e)));
  }

  function ToIcs(e: Entry, newId: string, now: DateTime): string
    requires ValidEntry(e) && Valid(now) && Utf8(newId)
  {
    EntryLinesAreText(e, newId, now);
    FoldAll(EntryLines(e, newId, now))
  }

  lemma TimeLineClean(name: string, o: Option<DateTime>)
    requires ValidTime(o) && NoNewline(name) && name != "" && !TextCodec.Blank(name[0])
    ensures CleanLines(TimeLine(name, o))
  {
    if o.Some? {
      ParseFormat(o.value);
    }
  }

  lemma FieldOfClean(name: string, o: Option<string>)
    requires NoNewline(name) && name != "" && !TextCodec.Blank(name[0])
    ensures CleanLines(FieldOf(name, o))
  {
    if o.Some? {
      FieldClean(name, o.value);
    }
  }

  lemma LineClean(name: string, value: string)
    requires NoNewline(name) && name != "" && !TextCodec.Blank(name[0]) && NoNewline(value)
    ensures NoNewline(name + ":" + value) && !StartsBlank(name + ":" + value)
  {
  }

  lemma CompletedClean(o: Option<DateTime>)
    requires ValidTime(o)
    ensures CleanLines(CompletedLines(o))
  {
    if o.Some? {
      ParseFormat(o.value);
      LineClean("COMPLETED", Format(o.value));
      LineClean("STATUS", "COMPLETED");
      LineClean("PERCENT-COMPLETE", "100");
    }
  }

  lemma EventTimesClean(start: Option<DateTime>, end: Option<DateTime>, location: Option<string>)
    requires ValidTime(start) && ValidTime(end)
    ensures CleanLines(TimeLine("DTSTART", start) + TimeLine("DTEND", end) + FieldOf("LOCATION", location))
  {
    TimeLineClean("DTSTART", start);
    TimeLineClean("DTEND", end);
    FieldOfClean("LOCATION", location);
    CleanConcat(TimeLine("DTSTART", start), TimeLine("DTEND", end));
    CleanConcat(TimeLine("DTSTART", start) + TimeLine("DTEND", end), FieldOf("LOCATION", location));
  }

  lemma TimeFieldsClean(e: Entry)
    requires ValidEntry(e)
    ensures CleanLines(TimeFields(e))
  {
    match e {
      case Event(_, _, start, end, location, _, _) =>
        EventTimesClean(start, end, location);
      case Todo(_, _, due, completed, _, _) =>
        TimeLineClean("DUE", due);
        CompletedClean(completed);
        CleanConcat(TimeLine("DUE", due), CompletedLines(completed));
    }
  }

  lemma FieldLinesClean(e: Entry, newId: string, now: DateTime)
    requires ValidEntry(e) && Valid(now)
    ensures CleanLines(FieldLines(e, newId, now))
  {
    FieldClean("UID", UidOf(e.uid, newId));
    TimeLineClean("DTSTAMP", Some(now));
    FieldClean("SUMMARY", e.summary);
    assert TimeLine("DTSTAMP", Some(now))[0] == "DTSTAMP" + ":" + Format(now);
    assert CleanLines(FirstFields(e, newId, now));
    TimeFieldsClean(e);
    FieldOfClean("DESCRIPTION", e.description);
    CleanConcat(FirstFields(e, newId, now), TimeFields(e));
    CleanConcat(FirstFields(e, newId, now) + TimeFields(e), FieldOf("DESCRIPTION", e.description));
  }

  // ---- How the printed lines are split ----

  const NOTHING := Split([], None)

  lemma SplitLast(s: Split, kind: string, lines: seq<string>, line: string)
    ensures SplitAll(s, kind, lines + [line]) == SplitLine(SplitAll(s, kind, lines), kind, line)
  {
    assert (lines + [line])[..|lines|] == lines;
  }

  lemma PlainMarkNames()
    ensures PlainName("BEGIN") && PlainName("END")
  {
  }

  lemma PlainFrameNames()
    ensures PlainName("VERSION") && PlainName("PRODID")
  {
  }

  lemma UpperKinds()
    ensures Upper("VEVENT") == "VEVENT" && Upper("VTODO") == "VTODO"
  {
  }

  lemma UpperCalendar()
    ensures Upper("VCALENDAR") == "VCALENDAR"
  {
  }

  // Outside a component, every line but the opening of one is passed over.
  lemma SkipLine(kind: string, s: Split, name: string, value: string)
    requires s.current.None? && PlainName(name) && !IsMark(kind, Property(name, value))
    ensures SplitLine(s, kind, name + ":" + value) == s
  {
    SplitPlain(name, value);
  }

  lemma SkipCalendar(kind: string, s: Split, name: string)
    requires IsKind(kind) && s.current.None? && (name == "BEGIN" || name == "END")
    ensures SplitLine(s, kind, name + ":" + "VCALENDAR") == s
  {
    PlainMarkNames();
    UpperCalendar();
    SkipLine(kind, s, name, "VCALENDAR");
  }

  lemma BeginLine(kind: string, s: Split)
    requires IsKind(kind)
    ensures SplitLine(s, kind, "BEGIN" + ":" + kind) == s.(current := Some([]))
  {
    PlainMarkNames();
    UpperKinds();
    SplitPlain("BEGIN", kind);
  }

  lemma EndLine(kind: string, s: Split)
    requires IsKind(kind)
    ensures SplitLine(s, kind, "END" + ":" + kind) == Split(if s.current.Some? then s.out + [s.current.value] else s.out, None)
  {
    PlainMarkNames();
    UpperKinds();
    SplitPlain("END", kind);
  }

  lemma SplitOpening(kind: string)
    requires IsKind(kind)
    ensures SplitAll(NOTHING, kind, Opening(kind)) == Split([], Some([]))
  {
    var a, b, c, d := "BEGIN" + ":" + "VCALENDAR", "VERSION" + ":" + "2.0", "PRODID" + ":" + PRODID, "BEGIN" + ":" + kind;
    assert SplitLine(NOTHING, kind, a) == NOTHING by { SkipCalendar(kind, NOTHING, "BEGIN"); }
    PlainFrameNames();
    assert SplitLine(NOTHING, kind, b) == NOTHING by { SkipLine(kind, NOTHING, "VERSION", "2.0"); }
    assert SplitLine(NOTHING, kind, c) == NOTHING by { SkipLine(kind, NOTHING, "PRODID", PRODID); }
    BeginLine(kind, NOTHING);
    SplitFour(NOTHING, kind, a, b, c, d);
  }

  lemma SplitFour(s: Split, kind: string, a: string, b: string, c: string, d: string)
    ensures SplitAll(s, kind, [a, b, c, d])
            == SplitLine(SplitLine(SplitLine(SplitLine(s, kind, a), kind, b), kind, c), kind, d)
  {
    assert SplitAll(s, kind, []) == s;
    SplitLast(s, kind, [], a);
    assert [] + [a] == [a];
    SplitLast(s, kind, [a], b);
    assert [a] + [b] == [a, b];
    SplitLast(s, kind, [a, b], c);
    assert [a, b] + [c] == [a, b, c];
    SplitLast(s, kind, [a, b, c], d);
    assert [a, b, c] + [d] == [a, b, c, d];
  }

  lemma SplitClosing(kind: string, lines: seq<string>)
    requires IsKind(kind)
    ensures var s := SplitAll(NOTHING, kind, lines);
            Components(lines + Closing(kind), kind) == if s.current.Some? then s.out + [s.current.value] else s.out
  {
    var s, a, b := SplitAll(NOTHING, kind, lines), "END" + ":" + kind, "END" + ":" + "VCALENDAR";
    SplitLast(NOTHING, kind, lines, a);
    EndLine(kind, s);
    var t := SplitLine(s, kind, a);
    SkipCalendar(kind, t, "END");
    SplitLast(NOTHING, kind, lines + [a], b);
    TwoLast(lines, a, b);
  }

  lemma TwoLast<T>(s: seq<T>, a: T, b: T)
    ensures s + [a] + [b] == s + [a, b]
  {
  }

  // Lines inside a component that are not marks are collected.
  lemma {:induction false} SplitInside(kind: string, collected: seq<string>, lines: seq<string>)
    requires NoMarks(kind, lines)
    ensures SplitAll(Split([], Some(collected)), kind, lines) == Split([], Some(collected + lines))
  {
    if lines == [] {
      assert collected + [] == collected;
    } else {
      var front, last := lines[..|lines| - 1], lines[|lines| - 1];
      assert last in lines;
      SplitInside(kind, collected, front);
      assert collected + front + [last] == collected + lines;
    }
  }

  lemma NamedUnmarked(e: Entry, lines: seq<string>)
    requires AllNamed(e, lines)
    ensures NoMarks(KindOf(e), lines)
  {
  }

  lemma KeptUnmarked(e: Entry, lines: seq<string>)
    requires AllKept(e, lines)
    ensures NoMarks(KindOf(e), lines)
  {
  }

  // ---- Which entries survive ----

  predicate Whole(o: Option<DateTime>) {
    o.Some? ==> o.value.nanos == 0
  }

  predicate GoodExtra(e: Entry, line: string) {
    NoNewline(line) && !StartsBlank(line) && Kept(e, line)
  }

  predicate PlainFields(e: Entry) {
    && e.uid != "" && '\r' !in e.uid && '\r' !in e.summary && NoCr(e.description)
    && match e
       case Event(_, _, start, end, location, _, _) => Whole(start) && Whole(end) && NoCr(location)
       case Todo(_, _, due, completed, _, _) => Whole(due) && Whole(completed)
  }

  predicate Survives(e: Entry) {
    PlainFields(e) && forall line <- e.extra :: GoodExtra(e, line)
  }

  lemma BackIff(e: Entry, newId: string)
    requires newId != "" && '\r' !in newId
    ensures Back(e, newId).(extra := e.extra) == e <==> PlainFields(e)
  {
    WithoutCrSame(UidOf(e.uid, newId));
    WithoutCrSame(e.summary);
    WithoutCrOfSame(e.description);
    if e.Event? {
      WithoutCrOfSame(e.location);
    }
  }

  // The extra lines of what is parsed come from the input, and only kept lines do.
  lemma ParsedExtra(e: Entry, lines: seq<string>)
    requires KindOf(Default(e)) == KindOf(e)
    ensures var r, first := ParsedLines(Default(e), lines), First(SplitAll(NOTHING, KindOf(e), lines));
            r.Some? ==> && |r.value.extra| <= KeptCount(e, first)
                        && forall x <- r.value.extra :: x in first
  {
    var kind := KindOf(e);
    var s := SplitAll(NOTHING, kind, lines);
    SplitAllCount(e, NOTHING, lines);
    var components := Components(lines, kind);
    if components != [] {
      assert components[0] == First(s);
      assert NoMarks(kind, components[0]) by {
        if s.out != [] {
          assert s.out[0] in s.out;
        }
      }
      TakeExtras(Default(e), components[0]);
      KeptCountByKind(Default(e), e, components[0]);
    }
  }

  lemma {:induction false} KeptCountByKind(e: Entry, f: Entry, lines: seq<string>)
    requires KindOf(e) == KindOf(f)
    ensures KeptCount(e, lines) == KeptCount(f, lines)
  {
    if lines != [] {
      KeptCountByKind(e, f, lines[..|lines| - 1]);
    }
  }

  lemma NewlineExtraDoesNotReturn(e: Entry, input: string)
    requires !forall line <- e.extra :: NoNewline(line)
    ensures FromIcs(Default(e), input) != Some(e)
  {
    var lines := Unfolded(input);
    UnfoldNoNewline(input);
    ParsedExtra(e, lines);
    SplitAllCount(e, NOTHING, lines);
  }

  // Too few kept lines before the closing, and an extra line is missing.
  lemma ClosedCount(e: Entry, lines: seq<string>, bound: nat)
    requires KeptCount(e, First(SplitAll(NOTHING, KindOf(e), lines))) < bound
    requires |e.extra| >= bound
    ensures ParsedLines(Default(e), lines + Closing(KindOf(e))) != Some(e)
  {
    var kind := KindOf(e);
    var s := SplitAll(NOTHING, kind, lines);
    SplitClosing(kind, lines);
    SplitAllCount(e, NOTHING, lines);
    var components := Components(lines + Closing(kind), kind);
    if components != [] {
      assert components[0] == First(s);
      assert NoMarks(kind, components[0]) by {
        if s.out != [] {
          assert s.out[0] in s.out;
        }
      }
      TakeExtras(Default(e), components[0]);
      KeptCountByKind(Default(e), e, components[0]);
    }
  }

  lemma LongerHeadCount(e: Entry, fields: seq<string>, longer: string)
    requires fields != [] && AllNamed(e, fields) && fields[|fields| - 1] <= longer
    ensures var q := fields[..|fields| - 1] + [longer];
            && SplitAll(NOTHING, KindOf(e), Opening(KindOf(e)) + q) == Split([], Some(q))
            && KeptCount(e, q) == 0
  {
    var last := fields[|fields| - 1];
    assert Named(e, last) && longer == last + longer[|last|..];
    SplitLonger(last, longer[|last|..]);
    var q := fields[..|fields| - 1] + [longer];
    assert AllNamed(e, q);
    NamedAreNotKept(e, q);
    NamedUnmarked(e, q);
    SplitOpening(KindOf(e));
    SplitInside(KindOf(e), [], q);
    SplitInTurn(NOTHING, KindOf(e), Opening(KindOf(e)), q);
    assert [] + q == q;
  }

  // Behind a head without kept lines, there are no more kept lines than lines.
  lemma RestCount(e: Entry, q: seq<string>, rest: seq<string>)
    requires SplitAll(NOTHING, KindOf(e), Opening(KindOf(e)) + q) == Split([], Some(q)) && KeptCount(e, q) == 0
    ensures KeptCount(e, First(SplitAll(NOTHING, KindOf(e), Opening(KindOf(e)) + q + rest))) <= |rest|
  {
    SplitInTurn(NOTHING, KindOf(e), Opening(KindOf(e)) + q, rest);
    NamedUnmarkedSplit(e, q);
    SplitAllCount(e, Split([], Some(q)), rest);
    KeptCountBound(e, rest);
  }

  // What absorbing makes of the lines: all but the last head line, that line made longer, and the rest.
  lemma AbsorbedParts(a: seq<string>, fields: seq<string>, extra: seq<string>)
    requires fields != []
    ensures var m := AbsorbAll(a + fields, extra);
            var n := |a| + |fields|;
            && |m| >= n && fields[|fields| - 1] <= m[n - 1]
            && m == a + (fields[..|fields| - 1] + [m[n - 1]]) + m[n..]
  {
    var m, n := AbsorbAll(a + fields, extra), |a| + |fields|;
    AbsorbBehind(a + fields, extra);
    assert (a + fields)[..n - 1] == a + fields[..|fields| - 1];
    CutInThree(m, n - 1);
    Reassemble(a, fields[..|fields| - 1], m[n - 1], m[n..]);
  }

  lemma CutInThree<T>(m: seq<T>, i: nat)
    requires i < |m|
    ensures m == m[..i] + [m[i]] + m[i + 1..]
  {
  }

  lemma Reassemble<T>(a: seq<T>, b: seq<T>, x: T, c: seq<T>)
    ensures (a + b) + [x] + c == a + (b + [x]) + c
  {
  }

  // An extra line that starts blank is swallowed by the line before it.
  lemma BlankExtraIsLost(e: Entry, fields: seq<string>)
    requires fields != [] && AllNamed(e, fields)
    requires exists line <- e.extra :: StartsBlank(line)
    ensures KeptCount(e, First(SplitAll(NOTHING, KindOf(e), AbsorbAll(Opening(KindOf(e)) + fields, e.extra)))) < |e.extra|
  {
    var a := Opening(KindOf(e));
    var m, n := AbsorbAll(a + fields, e.extra), |a| + |fields|;
    AbsorbCount(a + fields, e.extra);
    AbsorbedParts(a, fields, e.extra);
    LongerHeadCount(e, fields, m[n - 1]);
    RestCount(e, fields[..|fields| - 1] + [m[n - 1]], m[n..]);
  }

  lemma NamedUnmarkedSplit(e: Entry, q: seq<string>)
    requires SplitAll(NOTHING, KindOf(e), Opening(KindOf(e)) + q) == Split([], Some(q))
    ensures Unmarked(KindOf(e), Split([], Some(q)))
  {
    SplitAllCount(e, NOTHING, Opening(KindOf(e)) + q);
  }

  lemma ClosingStaysApart(m: seq<string>, kind: string)
    requires IsKind(kind)
    ensures AbsorbAll(m, Closing(kind)) == m + Closing(kind)
  {
    FrameClean(kind);
    AbsorbPlain(m, Closing(kind));
  }

  lemma AbsorbFramed(h: seq<string>, extra: seq<string>, kind: string)
    requires IsKind(kind) && CleanLines(h)
    ensures AbsorbAll([], h + extra + Closing(kind)) == AbsorbAll(h, extra) + Closing(kind)
  {
    AbsorbInTurn([], h + extra, Closing(kind));
    AbsorbInTurn([], h, extra);
    AbsorbPlain([], h);
    assert [] + h == h;
    ClosingStaysApart(AbsorbAll(h, extra), kind);
  }

  lemma BlankExtraDoesNotReturn(e: Entry, fields: seq<string>)
    requires fields != [] && AllNamed(e, fields) && CleanLines(fields)
    requires exists line <- e.extra :: StartsBlank(line)
    ensures ParsedLines(Default(e), AbsorbAll([], Opening(KindOf(e)) + fields + e.extra + Closing(KindOf(e)))) != Some(e)
  {
    var h := Opening(KindOf(e)) + fields;
    FrameClean(KindOf(e));
    CleanConcat(Opening(KindOf(e)), fields);
    AbsorbFramed(h, e.extra, KindOf(e));
    BlankExtraIsLost(e, fields);
    ClosedCount(e, AbsorbAll(h, e.extra), |e.extra|);
  }

  lemma HeadSplit(e: Entry, fields: seq<string>)
    requires AllNamed(e, fields)
    ensures SplitAll(NOTHING, KindOf(e), Opening(KindOf(e)) + fields) == Split([], Some(fields))
  {
    NamedUnmarked(e, fields);
    SplitOpening(KindOf(e));
    SplitInTurn(NOTHING, KindOf(e), Opening(KindOf(e)), fields);
    SplitInside(KindOf(e), [], fields);
    assert [] + fields == fields;
  }

  lemma KeptComponent(e: Entry, fields: seq<string>)
    requires AllNamed(e, fields) && AllKept(e, e.extra)
    ensures Components(Opening(KindOf(e)) + fields + e.extra + Closing(KindOf(e)), KindOf(e)) == [fields + e.extra]
  {
    var kind := KindOf(e);
    HeadSplit(e, fields);
    SplitInTurn(NOTHING, kind, Opening(kind) + fields, e.extra);
    KeptUnmarked(e, e.extra);
    SplitInside(kind, fields, e.extra);
    SplitClosing(kind, Opening(kind) + fields + e.extra);
  }

  lemma AllKeptParsed(e: Entry, fields: seq<string>, back: Entry)
    requires AllNamed(e, fields) && AllKept(e, e.extra)
    requires TakeAll(Default(e), fields) == back && KindOf(back) == KindOf(e) && back.extra == []
    ensures ParsedLines(Default(e), Opening(KindOf(e)) + fields + e.extra + Closing(KindOf(e))) == Some(back.(extra := e.extra))
  {
    KeptComponent(e, fields);
    TakeInTurn(Default(e), fields, e.extra);
    TakeKept(e, back, e.extra);
    assert [] + e.extra == e.extra;
  }

  lemma NotAllKeptLost(e: Entry, fields: seq<string>)
    requires AllNamed(e, fields) && !AllKept(e, e.extra)
    ensures ParsedLines(Default(e), Opening(KindOf(e)) + fields + e.extra + Closing(KindOf(e))) != Some(e)
  {
    HeadSplit(e, fields);
    SplitInTurn(NOTHING, KindOf(e), Opening(KindOf(e)) + fields, e.extra);
    NamedUnmarkedSplit(e, fields);
    SplitAllCount(e, Split([], Some(fields)), e.extra);
    NamedAreNotKept(e, fields);
    KeptCountBound(e, e.extra);
    ClosedCount(e, Opening(KindOf(e)) + fields + e.extra, |e.extra|);
  }

  lemma PlainExtraIff(e: Entry, newId: string, now: DateTime)
    requires ValidEntry(e) && Valid(now) && newId != "" && '\r' !in newId && CleanLines(e.extra)
    ensures ParsedLines(Default(e), EntryLines(e, newId, now)) == Some(e) <==> Survives(e)
  {
    var fields := FieldLines(e, newId, now);
    TakeFieldLines(e, newId, now);
    BackIff(e, newId);
    if AllKept(e, e.extra) {
      AllKeptParsed(e, fields, Back(e, newId));
    } else {
      NotAllKeptLost(e, fields);
    }
  }

  lemma {:induction false} TakeKept(e: Entry, f: Entry, lines: seq<string>)
    requires KindOf(e) == KindOf(f) && AllKept(e, lines)
    ensures TakeAll(f, lines) == f.(extra := f.extra + lines)
  {
    if lines == [] {
      assert f.extra + [] == f.extra;
    } else {
      var front, last := lines[..|lines| - 1], lines[|lines| - 1];
      assert last in lines && Kept(e, last);
      TakeKept(e, f, front);
      assert f.extra + front + [last] == f.extra + lines;
    }
  }

  lemma FrameClean(kind: string)
    requires IsKind(kind)
    ensures CleanLines(Opening(kind)) && CleanLines(Closing(kind))
  {
    LineClean("BEGIN", "VCALENDAR");
    LineClean("VERSION", "2.0");
    LineClean("PRODID", PRODID);
    LineClean("BEGIN", kind);
    LineClean("END", kind);
    LineClean("END", "VCALENDAR");
  }

  predicate NoNewlines(lines: seq<string>) {
    forall line <- lines :: NoNewline(line)
  }

  lemma CleanAround(a: seq<string>, x: seq<string>, z: seq<string>)
    requires CleanLines(a) && NoNewlines(x) && CleanLines(z)
    ensures NoNewlines(a + x + z)
    ensures CleanLines(x) ==> CleanLines(a + x + z)
  {
  }

  lemma CleanEntry(e: Entry, fields: seq<string>)
    requires CleanLines(fields) && NoNewlines(e.extra)
    ensures NoNewlines(Opening(KindOf(e)) + fields + e.extra + Closing(KindOf(e)))
    ensures CleanLines(e.extra) ==> CleanLines(Opening(KindOf(e)) + fields + e.extra + Closing(KindOf(e)))
  {
    FrameClean(KindOf(e));
    CleanConcat(Opening(KindOf(e)), fields);
    CleanAround(Opening(KindOf(e)) + fields, e.extra, Closing(KindOf(e)));
  }

  lemma CleanExtraIff(e: Entry, newId: string, now: DateTime, fields: seq<string>)
    requires ValidEntry(e) && Valid(now) && Utf8(newId) && newId != "" && '\r' !in newId
    requires fields == FieldLines(e, newId, now) && NoNewlines(e.extra)
    requires CleanLines(fields) && AllNamed(e, fields) && fields != []
    ensures ParsedLines(Default(e), AbsorbAll([], EntryLines(e, newId, now))) == Some(e) <==> Survives(e)
  {
    var lines := EntryLines(e, newId, now);
    CleanEntry(e, fields);
    if CleanLines(e.extra) {
      AbsorbPlain([], lines);
      assert [] + lines == lines;
      PlainExtraIff(e, newId, now);
    } else {
      BlankExtraDoesNotReturn(e, fields);
    }
  }

  /** Printing and parsing returns the same event or to-do exactly for the entries that survive. */
  lemma CalendarRoundTripIff(e: Entry, newId: string, now: DateTime)
    requires ValidEntry(e) && Valid(now) && Utf8(newId) && newId != "" && '\r' !in newId
    ensures FromIcs(Default(e), ToIcs(e, newId, now)) == Some(e) <==> Survives(e)
  {
    var lines, fields := EntryLines(e, newId, now), FieldLines(e, newId, now);
    EntryLinesAreText(e, newId, now);
    if NoNewlines(e.extra) {
      FieldLinesClean(e, newId, now);
      TakeFieldLines(e, newId, now);
      CleanEntry(e, fields);
      UnfoldFold(lines);
      CleanExtraIff(e, newId, now, fields);
    } else {
      NewlineExtraDoesNotReturn(e, ToIcs(e, newId, now));
    }
  }

  // ---- The loops of the program ----

  method SplitComponents(input: string, kind: string) returns (out: seq<seq<string>>)
    ensures out == Components(Unfolded(input), kind)
  {
    var lines := Unfold(input);
    out := [];
    var current: Option<seq<string>> := None;
    for k := 0 to |lines|
      invariant SplitAll(NOTHING, kind, lines[..k]) == Split(out, current)
    {
      assert lines[..k + 1] == lines[..k] + [lines[k]];
      SplitLast(NOTHING, kind, lines[..k], lines[k]);
      var p := SplitProp(lines[k]);
      if p.None? {
      } else if p.value.name == "BEGIN" && Upper(p.value.value) == kind {
        current := Some([]);
      } else if p.value.name == "END" && Upper(p.value.value) == kind {
        if current.Some? {
          out := out + [current.value];
        }
        current := None;
      } else if current.Some? {
        current := Some(current.value + [lines[k]]);
      }
    }
    assert lines[..|lines|] == lines;
    if current.Some? {
      out := out + [current.value];
    }
  }

  method ParseComponent(blank: Entry, lines: seq<string>) returns (e: Entry)
    ensures e == TakeAll(blank, lines)
  {
    e := blank;
    for k := 0 to |lines|
      invariant e == TakeAll(blank, lines[..k])
    {
      assert lines[..k + 1][..k] == lines[..k];
      var p := SplitProp(lines[k]);
      if p.Some? {
        e := TakeProperty(e, p.value.name, p.value.value, lines[k]);
      }
    }
    assert lines[..|lines|] == lines;
  }

  method ParseIcs(blank: Entry, input: string) returns (e: Option<Entry>)
    ensures e == FromIcs(blank, input)
  {
    var components := SplitComponents(input, KindOf(blank));
    if components == [] {
      return None;
    }
    var parsed := ParseComponent(blank, components[0]);
    e := Some(parsed);
  }

  method PrintIcs(e: Entry, newId: string, now: DateTime) returns (out: string)
    requires ValidEntry(e) && Valid(now) && Utf8(newId)
    ensures out == ToIcs(e, newId, now)
  {
    FrameIsText(KindOf(e));
    FirstFieldsAreText(e, newId, now);
    AsciiIsText("DESCRIPTION" + ":", 0);
    out := PutLines("", Opening(KindOf(e)), []);
    assert [] + Opening(KindOf(e)) == Opening(KindOf(e));
    ghost var done := Opening(KindOf(e));
    out := PutLines(out, FirstFields(e, newId, now), done);
    TimeFieldsAreText(e);
    out := PutLines(out, TimeFields(e), done + FirstFields(e, newId, now));
    out := PutOptional(out, "DESCRIPTION", e.description, done + FirstFields(e, newId, now) + TimeFields(e));
    Behind(done, FirstFields(e, newId, now), TimeFields(e), FieldOf("DESCRIPTION", e.description));
    done := done + FieldLines(e, newId, now);
    out := PutLines(out, e.extra, done);
    out := PutLines(out, Closing(KindOf(e)), done + e.extra);
  }

  lemma Behind<T>(d: seq<T>, a: seq<T>, b: seq<T>, c: seq<T>)
    ensures d + a + b + c == d + (a + b + c)
  {
  }
}
