/** The text an event or a to-do is printed as, line by line, and what the parser makes of the lines of any writer. */
module ICalendarForm {
  import opened Wrappers
  import opened TextCodec
  import opened PropertyLines
  import opened CalendarTime
  import opened ICalendar

  // ---- The printed lines ----

  predicate TextIfAny(lines: seq<string>, prefix: string, value: Option<string>) {
    if value.Some? then lines == [prefix + Escape(value.value)] else lines == []
  }

  predicate TimeIfAny(lines: seq<string>, prefix: string, time: Option<DateTime>)
    requires ValidTime(time)
  {
    if time.Some? then lines == [prefix + Format(time.value)] else lines == []
  }

  predicate OpensCalendar(lines: seq<string>, e: Entry) {
    lines == ["BEGIN:VCALENDAR", "VERSION:2.0", "PRODID:-//Keeplin//Keeplin//EN", if e.Event? then "BEGIN:VEVENT" else "BEGIN:VTODO"]
  }

  predicate ClosesCalendar(lines: seq<string>, e: Entry) {
    lines == [if e.Event? then "END:VEVENT" else "END:VTODO", "END:VCALENDAR"]
  }

  predicate Identifies(lines: seq<string>, e: Entry, newId: string, now: DateTime)
    requires Valid(now)
  {
    && |lines| == 3
    && lines[0] == "UID:" + Escape(if e.uid == "" then newId else e.uid)
    && lines[1] == "DTSTAMP:" + Format(now)
    && lines[2] == "SUMMARY:" + Escape(e.summary)
  }

  // A completed to-do says so three times over.
  predicate CompletedIfAny(lines: seq<string>, completed: Option<DateTime>)
    requires ValidTime(completed)
  {
    if completed.Some?
    then lines == ["COMPLETED:" + Format(completed.value), "STATUS:COMPLETED", "PERCENT-COMPLETE:100"]
    else lines == []
  }

  // The lines an event and a to-do do not share: start, end and location, or due time and completion.
  ghost predicate OwnLines(lines: seq<string>, e: Entry)
    requires ValidEntry(e)
  {
    match e
    case Event(_, _, start, end, location, _, _) =>
      exists a, b, c :: lines == a + b + c && TimeIfAny(a, "DTSTART:", start) && TimeIfAny(b, "DTEND:", end) && TextIfAny(c, "LOCATION:", location)
    case Todo(_, _, due, completed, _, _) =>
      exists a, b :: lines == a + b && TimeIfAny(a, "DUE:", due) && CompletedIfAny(b, completed)
  }

  lemma OpeningForm(e: Entry)
    ensures OpensCalendar(Opening(KindOf(e)), e)
  {
    assert "BEGIN" + ":" + "VCALENDAR" == "BEGIN:VCALENDAR" && "VERSION" + ":" + "2.0" == "VERSION:2.0";
    assert "PRODID" + ":" + PRODID == "PRODID:-//Keeplin//Keeplin//EN";
    assert "BEGIN" + ":" + KindOf(e) == if e.Event? then "BEGIN:VEVENT" else "BEGIN:VTODO";
  }

  lemma ClosingForm(e: Entry)
    ensures ClosesCalendar(Closing(KindOf(e)), e)
  {
    assert "END" + ":" + KindOf(e) == if e.Event? then "END:VEVENT" else "END:VTODO";
    assert "END" + ":" + "VCALENDAR" == "END:VCALENDAR";
  }

  lemma IdentityForm(e: Entry, newId: string, now: DateTime)
    requires Valid(now)
    ensures Identifies(FirstFields(e, newId, now), e, newId, now)
  {
    assert "UID" + ":" == "UID:" && "DTSTAMP" + ":" == "DTSTAMP:" && "SUMMARY" + ":" == "SUMMARY:";
  }

  lemma EventForm(e: Entry)
    requires ValidEntry(e) && e.Event?
    ensures OwnLines(TimeFields(e), e)
  {
    assert "DTSTART" + ":" == "DTSTART:" && "DTEND" + ":" == "DTEND:" && "LOCATION" + ":" == "LOCATION:";
    var a, b, c := TimeLine("DTSTART", e.start), TimeLine("DTEND", e.end), FieldOf("LOCATION", e.location);
    assert TimeIfAny(a, "DTSTART:", e.start) && TimeIfAny(b, "DTEND:", e.end) && TextIfAny(c, "LOCATION:", e.location);
  }

  lemma TodoForm(e: Entry)
    requires ValidEntry(e) && e.Todo?
    ensures OwnLines(TimeFields(e), e)
  {
    assert "DUE" + ":" == "DUE:" && "COMPLETED" + ":" == "COMPLETED:";
    assert "STATUS" + ":" + "COMPLETED" == "STATUS:COMPLETED" && "PERCENT-COMPLETE" + ":" + "100" == "PERCENT-COMPLETE:100";
    var a, b := TimeLine("DUE", e.due), CompletedLines(e.completed);
    assert TimeIfAny(a, "DUE:", e.due) && CompletedIfAny(b, e.completed);
  }

  /** Line by line what an entry is printed as: which properties, under which names, in which order, and nothing else. */
  lemma PrintedEntry(e: Entry, newId: string, now: DateTime)
      returns (opening: seq<string>, identity: seq<string>, own: seq<string>, description: seq<string>, closing: seq<string>)
    requires ValidEntry(e) && Valid(now) && Utf8(newId)
    ensures var lines := opening + (identity + own + description) + e.extra + closing;
            Texts(lines) && ToIcs(e, newId, now) == FoldAll(lines)
    ensures OpensCalendar(opening, e) && Identifies(identity, e, newId, now) && ClosesCalendar(closing, e)
    ensures OwnLines(own, e) && TextIfAny(description, "DESCRIPTION:", e.description)
  {
    opening, identity, own, closing := Opening(KindOf(e)), FirstFields(e, newId, now), TimeFields(e), Closing(KindOf(e));
    description := FieldOf("DESCRIPTION", e.description);
    EntryLinesAreText(e, newId, now);
    OpeningForm(e);
    ClosingForm(e);
    IdentityForm(e, newId, now);
    assert "DESCRIPTION" + ":" == "DESCRIPTION:";
    match e
    case Event(_, _, _, _, _, _, _) => EventForm(e);
    case Todo(_, _, _, _, _, _) => TodoForm(e);
  }

  // ---- Which lines are read ----

  predicate Begins(kind: string, line: string) {
    SplitProp(line).Some? && SplitProp(line).value.name == "BEGIN" && Upper(SplitProp(line).value.value) == kind
  }

  predicate Ends(kind: string, line: string) {
    SplitProp(line).Some? && SplitProp(line).value.name == "END" && Upper(SplitProp(line).value.value) == kind
  }

  predicate AnyBegin(kind: string, lines: seq<string>) {
    exists line <- lines :: Begins(kind, line)
  }

  predicate Unmarked(kind: string, lines: seq<string>) {
    forall line <- lines :: !Begins(kind, line) && !Ends(kind, line)
  }

  lemma {:induction false} BeginsDecide(kind: string, lines: seq<string>)
    ensures var s := SplitAll(NOTHING, kind, lines); s.current.Some? || s.out != [] <==> AnyBegin(kind, lines)
    ensures !AnyBegin(kind, lines) ==> SplitAll(NOTHING, kind, lines) == NOTHING
  {
    if lines != [] {
      var front, last := lines[..|lines| - 1], lines[|lines| - 1];
      BeginsDecide(kind, front);
      assert lines == front + [last];
      assert AnyBegin(kind, lines) <==> AnyBegin(kind, front) || Begins(kind, last) by {
        assert last in lines && forall line <- front :: line in lines;
      }
    }
  }

  /** An entry is read exactly if there is a begin mark of its kind. */
  lemma ReadsEntryIff(blank: Entry, lines: seq<string>)
    ensures ParsedLines(blank, lines).Some? <==> AnyBegin(if blank.Event? then "VEVENT" else "VTODO", lines)
  {
    BeginsDecide(KindOf(blank), lines);
  }

  function WithColon(lines: seq<string>): seq<string> {
    if lines == [] then []
    else WithColon(lines[..|lines| - 1]) + if SplitProp(lines[|lines| - 1]).Some? then [lines[|lines| - 1]] else []
  }

  lemma {:induction false} Collects(kind: string, s: Split, inside: seq<string>)
    requires s.current.Some? && Unmarked(kind, inside)
    ensures SplitAll(s, kind, inside) == s.(current := Some(s.current.value + WithColon(inside)))
  {
    if inside == [] {
      assert s.current.value + [] == s.current.value;
    } else {
      var front, last := inside[..|inside| - 1], inside[|inside| - 1];
      assert last in inside;
      Collects(kind, s, front);
      assert s.current.value + WithColon(front) + [last] == s.current.value + (WithColon(front) + [last]);
      assert WithColon(front) + [] == WithColon(front);
    }
  }

  lemma {:induction false} OutGrows(kind: string, s: Split, lines: seq<string>)
    ensures s.out <= SplitAll(s, kind, lines).out
  {
    if lines != [] {
      OutGrows(kind, s, lines[..|lines| - 1]);
    }
  }

  lemma {:induction false} ColonlessIgnored(e: Entry, lines: seq<string>)
    ensures TakeAll(e, WithColon(lines)) == TakeAll(e, lines)
  {
    if lines != [] {
      var front, last := lines[..|lines| - 1], lines[|lines| - 1];
      ColonlessIgnored(e, front);
      if SplitProp(last).Some? {
        assert WithColon(lines)[..|WithColon(lines)| - 1] == WithColon(front);
      } else {
        assert WithColon(front) + [] == WithColon(front);
      }
    }
  }

  lemma OpensComponent(kind: string, before: seq<string>, begin: string, inside: seq<string>)
    requires !AnyBegin(kind, before) && Begins(kind, begin) && Unmarked(kind, inside)
    ensures SplitAll(NOTHING, kind, before + [begin] + inside) == Split([], Some(WithColon(inside)))
  {
    BeginsDecide(kind, before);
    SplitLast(NOTHING, kind, before, begin);
    SplitInTurn(NOTHING, kind, before + [begin], inside);
    Collects(kind, Split([], Some([])), inside);
    assert [] + WithColon(inside) == WithColon(inside);
  }

  lemma ClosesComponent(kind: string, s: Split, rest: seq<string>)
    requires s.out == [] && s.current.Some? && (rest != [] ==> Ends(kind, rest[0]))
    ensures var t := SplitAll(s, kind, rest);
            var all := if t.current.Some? then t.out + [t.current.value] else t.out;
            all != [] && all[0] == s.current.value
  {
    if rest != [] {
      assert rest == [rest[0]] + rest[1..];
      SplitInTurn(s, kind, [rest[0]], rest[1..]);
      assert [rest[0]] == [] + [rest[0]];
      SplitLast(s, kind, [], rest[0]);
      var closed := SplitLine(s, kind, rest[0]);
      assert closed.out == [s.current.value];
      OutGrows(kind, closed, rest[1..]);
    }
  }

  lemma FirstComponent(blank: Entry, before: seq<string>, begin: string, inside: seq<string>, rest: seq<string>)
    requires var kind := KindOf(blank);
             && !AnyBegin(kind, before) && Begins(kind, begin) && Unmarked(kind, inside) && (rest != [] ==> Ends(kind, rest[0]))
    ensures ParsedLines(blank, before + [begin] + inside + rest) == Some(TakeAll(blank, inside))
  {
    var kind := KindOf(blank);
    OpensComponent(kind, before, begin, inside);
    SplitInTurn(NOTHING, kind, before + [begin] + inside, rest);
    ClosesComponent(kind, Split([], Some(WithColon(inside))), rest);
    ColonlessIgnored(blank, inside);
  }

  // An entry begun by one line and not ended yet.
  function Open(begin: string, inside: seq<string>): seq<string> {
    [begin] + inside
  }

  lemma NothingAround(begin: string, inside: seq<string>)
    ensures [] + [begin] + inside + [] == Open(begin, inside)
  {
  }

  lemma OpenEntry(blank: Entry, begin: string, inside: seq<string>)
    requires Begins(KindOf(blank), begin) && Unmarked(KindOf(blank), inside)
    ensures ParsedLines(blank, Open(begin, inside)) == Some(TakeAll(blank, inside))
  {
    FirstComponent(blank, [], begin, inside, []);
    NothingAround(begin, inside);
  }

  /** What stands before the first begin mark and behind the end mark that follows is not read, and an entry may go on to the end of the text. */
  lemma OutsideIgnored(blank: Entry, before: seq<string>, begin: string, inside: seq<string>, rest: seq<string>)
    requires var kind := if blank.Event? then "VEVENT" else "VTODO";
             && !AnyBegin(kind, before) && Begins(kind, begin) && Unmarked(kind, inside) && (rest != [] ==> Ends(kind, rest[0]))
    ensures ParsedLines(blank, before + [begin] + inside + rest) == ParsedLines(blank, [begin] + inside)
  {
    FirstComponent(blank, before, begin, inside, rest);
    OpenEntry(blank, begin, inside);
  }

  // ---- What a line of an entry does ----

  lemma OneMoreLine(blank: Entry, begin: string, inside: seq<string>, line: string)
    requires Begins(KindOf(blank), begin) && Unmarked(KindOf(blank), inside + [line])
    ensures ParsedLines(blank, Open(begin, inside)) == Some(TakeAll(blank, inside))
    ensures ParsedLines(blank, Open(begin, inside + [line])) == Some(TakeLine(TakeAll(blank, inside), line))
  {
    forall l <- inside ensures !Begins(KindOf(blank), l) && !Ends(KindOf(blank), l) {
      assert l in inside + [line];
    }
    OpenEntry(blank, begin, inside);
    OpenEntry(blank, begin, inside + [line]);
    assert (inside + [line])[..|inside|] == inside;
  }

  lemma {:induction false} KindStays(e: Entry, lines: seq<string>)
    ensures TakeAll(e, lines).Event? <==> e.Event?
  {
    if lines != [] {
      KindStays(e, lines[..|lines| - 1]);
    }
  }

  // What the last line of an entry changed.
  predicate Changes(c: Entry, name: string, value: string, line: string, after: Entry) {
    match c
    case Event(uid, summary, start, end, location, description, extra) =>
      && (name == "UID" ==> after == Event(Unescape(value), summary, start, end, location, description, extra))
      && (name == "SUMMARY" ==> after == Event(uid, Unescape(value), start, end, location, description, extra))
      && (name == "DTSTART" ==> after == Event(uid, summary, Parse(value), end, location, description, extra))
      && (name == "DTEND" ==> after == Event(uid, summary, start, Parse(value), location, description, extra))
      && (name == "LOCATION" ==> after == Event(uid, summary, start, end, Some(Unescape(value)), description, extra))
      && (name == "DESCRIPTION" ==> after == Event(uid, summary, start, end, location, Some(Unescape(value)), extra))
      && (name == "DTSTAMP" ==> after == c)
      && (name !in {"UID", "SUMMARY", "DTSTART", "DTEND", "LOCATION", "DESCRIPTION", "DTSTAMP"} ==>
            after == Event(uid, summary, start, end, location, description, extra + [line]))
    case Todo(uid, summary, due, completed, description, extra) =>
      && (name == "UID" ==> after == Todo(Unescape(value), summary, due, completed, description, extra))
      && (name == "SUMMARY" ==> after == Todo(uid, Unescape(value), due, completed, description, extra))
      && (name == "DUE" ==> after == Todo(uid, summary, Parse(value), completed, description, extra))
      && (name == "COMPLETED" ==> after == Todo(uid, summary, due, Parse(value), description, extra))
      && (name == "DESCRIPTION" ==> after == Todo(uid, summary, due, completed, Some(Unescape(value)), extra))
      && (name in {"DTSTAMP", "STATUS", "PERCENT-COMPLETE"} ==> after == c)
      && (name !in {"UID", "SUMMARY", "DUE", "COMPLETED", "DESCRIPTION", "DTSTAMP", "STATUS", "PERCENT-COMPLETE"} ==>
            after == Todo(uid, summary, due, completed, description, extra + [line]))
  }

  /** Reading starts with a blank entry; each line with a ':' sets its field, or is kept whole if the entry has no field for it; any other line is passed over. */
  lemma LineChangesEntry(blank: Entry, begin: string, inside: seq<string>, line: string)
    requires var kind := if blank.Event? then "VEVENT" else "VTODO"; Begins(kind, begin) && Unmarked(kind, inside + [line])
    ensures ParsedLines(blank, [begin]) == Some(blank)
    ensures var before, after := ParsedLines(blank, Open(begin, inside)), ParsedLines(blank, Open(begin, inside + [line]));
            && before.Some? && after.Some? && (before.value.Event? <==> blank.Event?)
            && match SplitProp(line)
               case None => after == before
               case Some(p) => Changes(before.value, p.name, p.value, line, after.value)
  {
    OneMoreLine(blank, begin, inside, line);
    KindStays(blank, inside);
    OpenEntry(blank, begin, []);
    assert Open(begin, []) == [begin];
  }
}
