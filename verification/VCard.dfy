/** Contacts as vCards (RFC 6350): the printer, the parser, and exactly which contacts survive both. */
module VCard {
  import opened Wrappers
  import opened TextCodec
  import opened PropertyLines

  datatype Contact = Contact(
    uid: string,
    formattedName: string,
    familyName: Option<string>,
    givenName: Option<string>,
    emails: seq<string>,
    phones: seq<string>,
    org: Option<string>,
    note: Option<string>,
    extra: seq<string>)

  const EMPTY := Contact("", "", None, None, [], [], None, None, [])

  predicate AllText(c: Contact) {
    && Utf8(c.uid) && Utf8(c.formattedName)
    && IsText(c.familyName) && IsText(c.givenName) && IsText(c.org) && IsText(c.note)
    && Texts(c.emails) && Texts(c.phones) && Texts(c.extra)
  }

  // ---- The printer ----

  function NameValue(c: Contact): string {
    Escape(OrEmpty(c.familyName)) + ";" + Escape(OrEmpty(c.givenName)) + ";;;"
  }

  function NameLine(c: Contact): seq<string> {
    if c.familyName.Some? || c.givenName.Some? then ["N" + ":" + NameValue(c)] else []
  }

  function FirstFields(c: Contact, newId: string): seq<string> {
    ["VERSION:4.0", Field("UID", UidOf(c.uid, newId)), Field("FN", c.formattedName)]
  }

  // What stands between the first line and the extra ones.
  function FieldLines(c: Contact, newId: string): seq<string> {
    FirstFields(c, newId) + NameLine(c) + Fields("EMAIL", c.emails) + Fields("TEL", c.phones) + FieldOf("ORG", c.org) + FieldOf("NOTE", c.note)
  }

  function CardLines(c: Contact, newId: string): seq<string> {
    ["BEGIN:VCARD"] + FieldLines(c, newId) + c.extra + ["END:VCARD"]
  }

  // ---- The parser ----

  function UpTo(s: string, c: char): string {
    s[..Find(s, c)]
  }

  function NonEmpty(s: string): Option<string> {
    if s == "" then None else Some(s)
  }

  function FamilyPart(value: string): Option<string> {
    NonEmpty(Unescape(UpTo(value, ';')))
  }

  // The second part, if there is one, up to the next ';'. The value is cut before it is unescaped.
  function GivenPart(value: string): Option<string> {
    var i := Find(value, ';');
    if i == |value| then None else NonEmpty(Unescape(UpTo(value[i + 1..], ';')))
  }

  datatype Reading = Reading(inCard: bool, ended: bool, card: Contact)

  function Known(): set<string> {
    {"VERSION", "UID", "FN", "N", "EMAIL", "TEL", "ORG", "NOTE"}
  }

  function Take(r: Reading, line: string): Reading {
    if r.ended then r else
      match SplitProp(line)
      case None => r
      case Some(Property(name, value)) =>
        var c := r.card;
        if name == "BEGIN" && Upper(value) == "VCARD" then r.(inCard := true)
        else if name == "END" && Upper(value) == "VCARD" then r.(ended := true)
        else if !r.inCard || name == "VERSION" then r
        else r.(card := TakeProperty(c, name, value, line))
  }

  function TakeProperty(c: Contact, name: string, value: string, line: string): Contact {
    if name == "UID" then c.(uid := Unescape(value))
    else if name == "FN" then c.(formattedName := Unescape(value))
    else if name == "N" then c.(familyName := FamilyPart(value), givenName := GivenPart(value))
    else if name == "EMAIL" then c.(emails := c.emails + [Unescape(value)])
    else if name == "TEL" then c.(phones := c.phones + [Unescape(value)])
    else if name == "ORG" then c.(org := Some(Unescape(value)))
    else if name == "NOTE" then c.(note := Some(Unescape(value)))
    else c.(extra := c.extra + [line])
  }

  function TakeAll(r: Reading, lines: seq<string>): Reading {
    if lines == [] then r else Take(TakeAll(r, lines[..|lines| - 1]), lines[|lines| - 1])
  }

  const START := Reading(false, false, EMPTY)

  function Parsed(lines: seq<string>): Option<Contact> {
    var r := TakeAll(START, lines);
    if r.inCard then Some(r.card) else None
  }

  function FromVcard(input: string): Option<Contact> {
    Parsed(Unfolded(input))
  }

  lemma NameLineIsText(c: Contact)
    requires IsText(c.familyName) && IsText(c.givenName)
    ensures Texts(NameLine(c))
  {
    var f, g := OrEmpty(c.familyName), OrEmpty(c.givenName);
    AsciiIsText("N" + ":", 0);
    AsciiIsText(";", 0);
    AsciiIsText(";;;", 0);
    assert f[0..] == f && g[0..] == g;
    EscapeIsText(f, 0);
    EscapeIsText(g, 0);
    TextConcat(Escape(f), ";");
    TextConcat(Escape(f) + ";", Escape(g));
    TextConcat(Escape(f) + ";" + Escape(g), ";;;");
    TextConcat("N" + ":", NameValue(c));
  }

  lemma FirstFieldsAreText(c: Contact, newId: string)
    requires Utf8(c.uid) && Utf8(newId) && Utf8(c.formattedName)
    ensures Texts(FirstFields(c, newId))
  {
    AsciiIsText("VERSION:4.0", 0);
    AsciiIsText("UID" + ":", 0);
    AsciiIsText("FN" + ":", 0);
    FieldIsText("UID", UidOf(c.uid, newId));
    FieldIsText("FN", c.formattedName);
  }

  lemma FieldLinesAreText(c: Contact, newId: string)
    requires AllText(c) && Utf8(newId)
    ensures Texts(FieldLines(c, newId))
  {
    FirstFieldsAreText(c, newId);
    var a := FirstFields(c, newId);
    NameLineIsText(c);
    TextsConcat(a, NameLine(c));
    AsciiIsText("EMAIL" + ":", 0);
    FieldsAreText("EMAIL", c.emails);
    TextsConcat(a + NameLine(c), Fields("EMAIL", c.emails));
    AsciiIsText("TEL" + ":", 0);
    FieldsAreText("TEL", c.phones);
    var b := a + NameLine(c) + Fields("EMAIL", c.emails);
    TextsConcat(b, Fields("TEL", c.phones));
    AsciiIsText("ORG" + ":", 0);
    FieldOfIsText("ORG", c.org);
    TextsConcat(b + Fields("TEL", c.phones), FieldOf("ORG", c.org));
    AsciiIsText("NOTE" + ":", 0);
    FieldOfIsText("NOTE", c.note);
    TextsConcat(b + Fields("TEL", c.phones) + FieldOf("ORG", c.org), FieldOf("NOTE", c.note));
  }

  lemma FramedIsText(c: Contact, newId: string, first: string, last: string)
    requires first == "BEGIN:VCARD" && last == "END:VCARD"
    requires Texts(FieldLines(c, newId)) && Texts(c.extra)
    ensures Texts(CardLines(c, newId))
  {
    var fields := FieldLines(c, newId);
    AsciiIsText(first, 0);
    AsciiIsText(last, 0);
    TextsConcat([first], fields);
    TextsConcat([first] + fields, c.extra);
    TextsConcat([first] + fields + c.extra, [last]);
  }

  lemma CardLinesAreText(c: Contact, newId: string)
    requires AllText(c) && Utf8(newId)
    ensures Texts(CardLines(c, newId))
  {
    FieldLinesAreText(c, newId);
    FramedIsText(c, newId, "BEGIN:VCARD", "END:VCARD");
  }

  function ToVcard(c: Contact, newId: string): string
    requires AllText(c) && Utf8(newId)
  {
    CardLinesAreText(c, newId);
    FoldAll(CardLines(c, newId))
  }

  // ---- What the parser makes of a line ----

  predicate IsMark(p: Property) {
    (p.name == "BEGIN" || p.name == "END") && Upper(p.value) == "VCARD"
  }

  // A line of a property the contact has a field for, or VERSION.
  predicate Named(line: string) {
    SplitProp(line).Some? && SplitProp(line).value.name in Known()
  }

  // A line that is kept as it is.
  predicate Kept(line: string) {
    SplitProp(line).Some? && SplitProp(line).value.name !in Known() && !IsMark(SplitProp(line).value)
  }

  lemma {:induction false} TakeInTurn(r: Reading, a: seq<string>, b: seq<string>)
    ensures TakeAll(r, a + b) == TakeAll(TakeAll(r, a), b)
  {
    if b == [] {
      assert a + b == a;
    } else {
      assert (a + b)[..|a + b| - 1] == a + b[..|b| - 1];
      TakeInTurn(r, a, b[..|b| - 1]);
    }
  }

  lemma TakeOne(r: Reading, line: string)
    requires TakeAll(r, []) == r
    ensures TakeAll(r, [line]) == Take(r, line)
  {
    assert [line][..0] == [];
  }

  lemma TakeExtra(r: Reading, line: string)
    ensures Take(r, line).card.extra == r.card.extra || (Kept(line) && Take(r, line).card.extra == r.card.extra + [line])
    ensures Named(line) ==> Take(r, line).inCard == r.inCard && Take(r, line).ended == r.ended
  {
  }

  lemma {:induction false} TakeExtras(r: Reading, lines: seq<string>)
    ensures var e := TakeAll(r, lines).card.extra;
            && |e| <= |r.card.extra| + |lines|
            && ((exists line <- lines :: !Kept(line)) ==> |e| < |r.card.extra| + |lines|)
            && (forall x <- e :: x in r.card.extra || x in lines)
  {
    if lines != [] {
      TakeExtras(r, lines[..|lines| - 1]);
      TakeExtra(TakeAll(r, lines[..|lines| - 1]), lines[|lines| - 1]);
      assert lines == lines[..|lines| - 1] + [lines[|lines| - 1]];
    }
  }

  lemma {:induction false} TakeNamed(r: Reading, lines: seq<string>)
    requires forall line <- lines :: Named(line)
    ensures var q := TakeAll(r, lines);
            q.inCard == r.inCard && q.ended == r.ended && q.card.extra == r.card.extra
  {
    if lines != [] {
      TakeNamed(r, lines[..|lines| - 1]);
      assert lines[|lines| - 1] in lines;
      TakeExtra(TakeAll(r, lines[..|lines| - 1]), lines[|lines| - 1]);
    }
  }

  lemma {:induction false} TakeKept(r: Reading, lines: seq<string>)
    requires r.inCard && !r.ended && forall line <- lines :: Kept(line)
    ensures TakeAll(r, lines) == r.(card := r.card.(extra := r.card.extra + lines))
  {
    if lines == [] {
      assert r.card.extra + [] == r.card.extra;
    } else {
      var front, last := lines[..|lines| - 1], lines[|lines| - 1];
      assert last in lines;
      TakeKept(r, front);
      assert r.card.extra + front + [last] == r.card.extra + lines;
    }
  }

  lemma TakeField(r: Reading, name: string, value: string)
    requires r.inCard && !r.ended && PlainName(name) && name in Known()
    ensures Named(name + ":" + value)
    ensures Take(r, name + ":" + value)
            == if name == "VERSION" then r else r.(card := TakeProperty(r.card, name, value, name + ":" + value))
  {
    SplitPlain(name, value);
  }

  // ---- What a printed contact reads back as ----

  function WithoutCrs(values: seq<string>): seq<string> {
    if values == [] then [] else WithoutCrs(values[..|values| - 1]) + [WithoutCr(values[|values| - 1])]
  }

  function FamilyBack(c: Contact): Option<string> {
    if NameLine(c) == [] then None else FamilyPart(NameValue(c))
  }

  function GivenBack(c: Contact): Option<string> {
    if NameLine(c) == [] then None else GivenPart(NameValue(c))
  }

  function Back(c: Contact, newId: string): Contact {
    Contact(WithoutCr(UidOf(c.uid, newId)), WithoutCr(c.formattedName), FamilyBack(c), GivenBack(c),
            WithoutCrs(c.emails), WithoutCrs(c.phones), WithoutCrOf(c.org), WithoutCrOf(c.note), [])
  }

  lemma TakeEmail(r: Reading, value: string)
    requires r.inCard && !r.ended
    ensures Take(r, Field("EMAIL", value)) == r.(card := r.card.(emails := r.card.emails + [WithoutCr(value)]))
    ensures Named(Field("EMAIL", value))
  {
    TakeField(r, "EMAIL", Escape(value));
    UnescapeEscape(value);
  }

  lemma TakePhone(r: Reading, value: string)
    requires r.inCard && !r.ended
    ensures Take(r, Field("TEL", value)) == r.(card := r.card.(phones := r.card.phones + [WithoutCr(value)]))
    ensures Named(Field("TEL", value))
  {
    TakeField(r, "TEL", Escape(value));
    UnescapeEscape(value);
  }

  lemma TakeLast(r: Reading, lines: seq<string>, line: string)
    ensures TakeAll(r, lines + [line]) == Take(TakeAll(r, lines), line)
  {
    assert (lines + [line])[..|lines|] == lines;
  }

  lemma {:induction false} TakeEmails(r: Reading, values: seq<string>)
    requires r.inCard && !r.ended
    ensures TakeAll(r, Fields("EMAIL", values)) == r.(card := r.card.(emails := r.card.emails + WithoutCrs(values)))
    ensures forall line <- Fields("EMAIL", values) :: Named(line)
  {
    if values == [] {
      assert r.card.emails + [] == r.card.emails;
    } else {
      var front, last := values[..|values| - 1], values[|values| - 1];
      TakeEmails(r, front);
      TakeEmail(TakeAll(r, Fields("EMAIL", front)), last);
      TakeLast(r, Fields("EMAIL", front), Field("EMAIL", last));
      assert r.card.emails + WithoutCrs(front) + [WithoutCr(last)] == r.card.emails + (WithoutCrs(front) + [WithoutCr(last)]);
    }
  }

  lemma {:induction false} TakePhones(r: Reading, values: seq<string>)
    requires r.inCard && !r.ended
    ensures TakeAll(r, Fields("TEL", values)) == r.(card := r.card.(phones := r.card.phones + WithoutCrs(values)))
    ensures forall line <- Fields("TEL", values) :: Named(line)
  {
    if values == [] {
      assert r.card.phones + [] == r.card.phones;
    } else {
      var front, last := values[..|values| - 1], values[|values| - 1];
      TakePhones(r, front);
      TakePhone(TakeAll(r, Fields("TEL", front)), last);
      TakeLast(r, Fields("TEL", front), Field("TEL", last));
      assert r.card.phones + WithoutCrs(front) + [WithoutCr(last)] == r.card.phones + (WithoutCrs(front) + [WithoutCr(last)]);
    }
  }

  predicate AllNamed(lines: seq<string>) {
    forall line <- lines :: Named(line)
  }

  lemma NamedConcat(a: seq<string>, b: seq<string>)
    requires AllNamed(a) && AllNamed(b)
    ensures AllNamed(a + b)
  {
  }

  lemma TakeThree(r: Reading, a: string, b: string, c: string)
    ensures TakeAll(r, [a, b, c]) == Take(Take(Take(r, a), b), c)
  {
    TakeOne(r, a);
    assert [a, b][..1] == [a] && [a, b, c][..2] == [a, b];
  }

  lemma TakeVersion(r: Reading)
    requires r.inCard && !r.ended
    ensures Take(r, "VERSION:4.0") == r && Named("VERSION:4.0")
  {
    assert "VERSION:4.0" == "VERSION" + ":" + "4.0";
    TakeField(r, "VERSION", "4.0");
  }

  lemma TakeUid(r: Reading, value: string)
    requires r.inCard && !r.ended
    ensures Take(r, Field("UID", value)) == r.(card := r.card.(uid := WithoutCr(value))) && Named(Field("UID", value))
  {
    TakeField(r, "UID", Escape(value));
    UnescapeEscape(value);
  }

  lemma TakeFormatted(r: Reading, value: string)
    requires r.inCard && !r.ended
    ensures Take(r, Field("FN", value)) == r.(card := r.card.(formattedName := WithoutCr(value))) && Named(Field("FN", value))
  {
    TakeField(r, "FN", Escape(value));
    UnescapeEscape(value);
  }

  lemma TakeFirst(c: Contact, newId: string)
    ensures TakeAll(Reading(true, false, EMPTY), FirstFields(c, newId))
            == Reading(true, false, EMPTY.(uid := WithoutCr(UidOf(c.uid, newId)), formattedName := WithoutCr(c.formattedName)))
    ensures AllNamed(FirstFields(c, newId))
  {
    var r, uid := Reading(true, false, EMPTY), UidOf(c.uid, newId);
    TakeVersion(r);
    TakeUid(r, uid);
    TakeFormatted(r.(card := r.card.(uid := WithoutCr(uid))), c.formattedName);
    TakeThree(r, "VERSION:4.0", Field("UID", uid), Field("FN", c.formattedName));
  }

  lemma TakeName(c: Contact, r: Reading)
    requires r.inCard && !r.ended && r.card.familyName.None? && r.card.givenName.None?
    ensures TakeAll(r, NameLine(c)) == r.(card := r.card.(familyName := FamilyBack(c), givenName := GivenBack(c)))
    ensures AllNamed(NameLine(c))
  {
    if NameLine(c) != [] {
      TakeField(r, "N", NameValue(c));
      TakeOne(r, "N" + ":" + NameValue(c));
    }
  }

  lemma TakeOrg(r: Reading, value: Option<string>)
    requires r.inCard && !r.ended && r.card.org.None?
    ensures TakeAll(r, FieldOf("ORG", value)) == r.(card := r.card.(org := WithoutCrOf(value)))
    ensures AllNamed(FieldOf("ORG", value))
  {
    if value.Some? {
      TakeField(r, "ORG", Escape(value.value));
      UnescapeEscape(value.value);
      TakeOne(r, Field("ORG", value.value));
    }
  }

  lemma TakeNote(r: Reading, value: Option<string>)
    requires r.inCard && !r.ended && r.card.note.None?
    ensures TakeAll(r, FieldOf("NOTE", value)) == r.(card := r.card.(note := WithoutCrOf(value)))
    ensures AllNamed(FieldOf("NOTE", value))
  {
    if value.Some? {
      TakeField(r, "NOTE", Escape(value.value));
      UnescapeEscape(value.value);
      TakeOne(r, Field("NOTE", value.value));
    }
  }

  lemma TakeFieldLines(c: Contact, newId: string)
    ensures TakeAll(Reading(true, false, EMPTY), FieldLines(c, newId)) == Reading(true, false, Back(c, newId))
    ensures AllNamed(FieldLines(c, newId))
  {
    var r0 := Reading(true, false, EMPTY);
    var a, n, e, t := FirstFields(c, newId), NameLine(c), Fields("EMAIL", c.emails), Fields("TEL", c.phones);
    var o, d := FieldOf("ORG", c.org), FieldOf("NOTE", c.note);
    TakeFirst(c, newId);
    var r1 := TakeAll(r0, a);
    TakeName(c, r1);
    TakeInTurn(r0, a, n);
    NamedConcat(a, n);
    var r2 := TakeAll(r1, n);
    TakeEmails(r2, c.emails);
    TakeInTurn(r0, a + n, e);
    NamedConcat(a + n, e);
    var r3 := TakeAll(r2, e);
    TakePhones(r3, c.phones);
    TakeInTurn(r0, a + n + e, t);
    NamedConcat(a + n + e, t);
    var r4 := TakeAll(r3, t);
    TakeOrg(r4, c.org);
    TakeInTurn(r0, a + n + e + t, o);
    NamedConcat(a + n + e + t, o);
    var r5 := TakeAll(r4, o);
    TakeNote(r5, c.note);
    TakeInTurn(r0, a + n + e + t + o, d);
    NamedConcat(a + n + e + t + o, d);
    assert [] + WithoutCrs(c.emails) == WithoutCrs(c.emails) && [] + WithoutCrs(c.phones) == WithoutCrs(c.phones);
  }

  lemma TakeBegin()
    ensures Take(START, "BEGIN:VCARD") == Reading(true, false, EMPTY)
    ensures !StartsBlank("BEGIN:VCARD")
  {
    assert "BEGIN:VCARD" == "BEGIN" + ":" + "VCARD";
    MarkLine("BEGIN");
  }

  lemma TakeMark(r: Reading, line: string, p: Property)
    requires SplitProp(line) == Some(p) && p.name == "END" && Upper(p.value) == "VCARD"
    ensures Take(r, line) == if r.ended then r else r.(ended := true)
  {
  }

  lemma TakeEnd(r: Reading)
    ensures Take(r, "END:VCARD") == if r.ended then r else r.(ended := true)
  {
    assert "END:VCARD" == "END" + ":" + "VCARD";
    MarkLine("END");
    TakeMark(r, "END:VCARD", Property("END", "VCARD"));
  }

  function Head(c: Contact, newId: string): seq<string> {
    ["BEGIN:VCARD"] + FieldLines(c, newId)
  }

  lemma TakeHead(c: Contact, newId: string)
    ensures TakeAll(START, Head(c, newId)) == Reading(true, false, Back(c, newId))
  {
    TakeBegin();
    TakeOne(START, "BEGIN:VCARD");
    TakeInTurn(START, ["BEGIN:VCARD"], FieldLines(c, newId));
    TakeFieldLines(c, newId);
  }

  lemma TakeThenEnd(lines: seq<string>)
    ensures TakeAll(START, lines + ["END:VCARD"]).inCard == TakeAll(START, lines).inCard
    ensures TakeAll(START, lines + ["END:VCARD"]).card == TakeAll(START, lines).card
  {
    var r := TakeAll(START, lines);
    TakeInTurn(START, lines, ["END:VCARD"]);
    TakeOne(r, "END:VCARD");
    TakeEnd(r);
  }

  // ---- Which contacts survive ----

  predicate PlainNamePart(o: Option<string>) {
    o.Some? ==> o.value != "" && '\r' !in o.value && ';' !in o.value
  }

  predicate NoCrs(values: seq<string>) {
    forall s <- values :: '\r' !in s
  }

  predicate GoodExtra(line: string) {
    NoNewline(line) && !StartsBlank(line) && Kept(line)
  }

  predicate Survives(c: Contact) {
    && c.uid != "" && '\r' !in c.uid && '\r' !in c.formattedName
    && PlainNamePart(c.familyName) && PlainNamePart(c.givenName)
    && NoCrs(c.emails) && NoCrs(c.phones) && NoCr(c.org) && NoCr(c.note)
    && forall line <- c.extra :: GoodExtra(line)
  }

  lemma {:induction false} WithoutCrsSame(values: seq<string>)
    ensures WithoutCrs(values) == values <==> NoCrs(values)
    ensures |WithoutCrs(values)| == |values|
  {
    if values != [] {
      var front, last := values[..|values| - 1], values[|values| - 1];
      WithoutCrsSame(front);
      WithoutCrSame(last);
      assert values == front + [last];
      if WithoutCrs(values) == values {
        assert WithoutCrs(front) == WithoutCrs(values)[..|values| - 1];
        assert WithoutCr(last) == values[|values| - 1];
      }
    }
  }

  lemma UpToFirst(a: string, c: char, rest: string)
    requires c !in a
    ensures Find(a + [c] + rest, c) == |a| && UpTo(a + [c] + rest, c) == a
    ensures (a + [c] + rest)[|a| + 1..] == rest
  {
    FindUnique(a + [c] + rest, c, |a|);
  }

  // The part before the first ';' has none, however it is unescaped.
  lemma PartHasNoSemicolon(value: string)
    ensures ';' !in Unescape(UpTo(value, ';'))
  {
    UnescapeNoSemicolon(UpTo(value, ';'));
  }

  // What comes back of a printed name part.
  lemma NamePartIff(part: Option<string>, rest: string)
    ensures NonEmpty(Unescape(UpTo(Escape(OrEmpty(part)) + ";" + rest, ';'))) == part <==> PlainNamePart(part)
  {
    var s := OrEmpty(part);
    PartHasNoSemicolon(Escape(s) + ";" + rest);
    if ';' !in s {
      EscapeClean(s);
      UpToFirst(Escape(s), ';', rest);
      UnescapeEscape(s);
      WithoutCrSame(s);
    }
  }

  lemma GivenPartBehind(a: string, rest: string)
    requires ';' !in a
    ensures GivenPart(a + ";" + rest) == NonEmpty(Unescape(UpTo(rest, ';')))
  {
    UpToFirst(a, ';', rest);
  }

  lemma FamilyBackIff(c: Contact)
    ensures FamilyBack(c) == c.familyName <==> PlainNamePart(c.familyName)
  {
    var f, g := OrEmpty(c.familyName), OrEmpty(c.givenName);
    assert NameValue(c) == Escape(f) + ";" + (Escape(g) + ";;;");
    NamePartIff(c.familyName, Escape(g) + ";;;");
  }

  // What the second part reads as when the family name holds a ';': the text behind that, up to the next, whose escape is cut in two.
  function Spilled(family: string): string
    requires ';' in family
  {
    var rest := family[Find(family, ';') + 1..];
    WithoutCr(UpTo(rest, ';')) + if ';' in rest then "\\" else ""
  }

  lemma Regroup(a: string, b: string, c: string)
    ensures a + b + c == a + (b + c)
  {
  }

  lemma {:induction false} UnescapeBehindEscaped(s: string, rest: string)
    ensures Unescape(Escape(s) + rest) == WithoutCr(s) + Unescape(rest)
  {
    if s == "" {
      assert Escape(s) + rest == rest;
    } else {
      UnescapeBehindEscaped(s[1..], rest);
      UnescapeEscaped(s[0], Escape(s[1..]) + rest);
      Regroup(EscapeChar(s[0]), Escape(s[1..]), rest);
      Regroup(if s[0] == '\r' then "" else [s[0]], WithoutCr(s[1..]), Unescape(rest));
    }
  }

  // Escaped text breaks behind the backslash of a ';'.
  lemma EscapedBreaks(a: string, b: string, rest: string)
    ensures Escape(a + (";" + b)) + rest == Escape(a) + "\\" + ";" + (Escape(b) + rest)
  {
    EscapeConcat(a, ";" + b);
    EscapeConcat(";", b);
    assert ";"[1..] == "";
    assert Escape(";") == "\\" + ";";
    FivePieces(Escape(a), "\\", ";", Escape(b), rest);
  }

  lemma FivePieces(a: string, b: string, c: string, d: string, e: string)
    ensures a + (b + c + d) + e == a + b + c + (d + e)
  {
  }

  lemma BreakAtFirst(s: string)
    requires ';' in s
    ensures var i := Find(s, ';'); s == s[..i] + (";" + s[i + 1..]) && ';' !in s[..i] && ';' !in Escape(s[..i]) + "\\"
  {
    EscapeClean(s[..Find(s, ';')]);
  }

  lemma UpToOfEscaped(s: string, rest: string)
    ensures Unescape(UpTo(Escape(s) + (";" + rest), ';')) == WithoutCr(UpTo(s, ';')) + if ';' in s then "\\" else ""
  {
    if ';' in s {
      var i := Find(s, ';');
      BreakAtFirst(s);
      EscapedBreaks(s[..i], s[i + 1..], ";" + rest);
      UpToFirst(Escape(s[..i]) + "\\", ';', Escape(s[i + 1..]) + (";" + rest));
      UnescapeBehindEscaped(s[..i], "\\");
    } else {
      EscapeClean(s);
      Regroup(Escape(s), ";", rest);
      UpToFirst(Escape(s), ';', rest);
      UnescapeEscape(s);
      assert UpTo(s, ';') == s;
    }
  }

  lemma NameValueGrouped(f: string, g: string)
    ensures f + ";" + g + ";;;" == f + (";" + (g + ";;;"))
  {
  }

  lemma GivenBackSpilled(c: Contact)
    requires ';' in OrEmpty(c.familyName)
    ensures GivenBack(c) == NonEmpty(Spilled(OrEmpty(c.familyName)))
  {
    var f, g := OrEmpty(c.familyName), Escape(OrEmpty(c.givenName));
    var i := Find(f, ';');
    BreakAtFirst(f);
    NameValueGrouped(Escape(f), g);
    EscapedBreaks(f[..i], f[i + 1..], ";" + (g + ";;;"));
    GivenPartBehind(Escape(f[..i]) + "\\", Escape(f[i + 1..]) + (";" + (g + ";;;")));
    UpToOfEscaped(f[i + 1..], g + ";;;");
  }

  /** The given name returns exactly if it is non-empty when present and free of ';' and carriage returns, or, behind a family name with a ';', if it is what spills over from that. */
  lemma GivenBackIff(c: Contact)
    ensures GivenBack(c) == c.givenName <==>
            if ';' in OrEmpty(c.familyName) then c.givenName == NonEmpty(Spilled(OrEmpty(c.familyName)))
            else PlainNamePart(c.givenName)
  {
    if ';' in OrEmpty(c.familyName) {
      GivenBackSpilled(c);
    } else if NameLine(c) != [] {
      var f, g := Escape(OrEmpty(c.familyName)), Escape(OrEmpty(c.givenName));
      EscapeClean(OrEmpty(c.familyName));
      FourParts(f, g);
      GivenPartBehind(f, g + ";" + ";;");
      NamePartIff(c.givenName, ";;");
    }
  }

  lemma FourParts(f: string, g: string)
    ensures f + ";" + g + ";;;" == f + ";" + (g + ";" + ";;")
  {
  }

  lemma BackIff(c: Contact, newId: string)
    requires newId != "" && '\r' !in newId
    ensures Back(c, newId).(extra := c.extra) == c <==>
            && c.uid != "" && '\r' !in c.uid && '\r' !in c.formattedName
            && PlainNamePart(c.familyName) && PlainNamePart(c.givenName)
            && NoCrs(c.emails) && NoCrs(c.phones) && NoCr(c.org) && NoCr(c.note)
  {
    WithoutCrSame(UidOf(c.uid, newId));
    WithoutCrSame(c.formattedName);
    FamilyBackIff(c);
    if PlainNamePart(c.familyName) {
      GivenBackIff(c);
    }
    WithoutCrsSame(c.emails);
    WithoutCrsSame(c.phones);
    WithoutCrOfSame(c.org);
    WithoutCrOfSame(c.note);
  }

  // ---- From text to lines and back ----

  lemma NameLineClean(c: Contact)
    ensures CleanLines(NameLine(c))
  {
    EscapeClean(OrEmpty(c.familyName));
    EscapeClean(OrEmpty(c.givenName));
  }

  lemma FieldLinesClean(c: Contact, newId: string)
    ensures CleanLines(FieldLines(c, newId))
  {
    var a, n, e, t := FirstFields(c, newId), NameLine(c), Fields("EMAIL", c.emails), Fields("TEL", c.phones);
    FieldClean("UID", UidOf(c.uid, newId));
    FieldClean("FN", c.formattedName);
    assert CleanLines(a);
    NameLineClean(c);
    CleanConcat(a, n);
    FieldsClean("EMAIL", c.emails);
    CleanConcat(a + n, e);
    FieldsClean("TEL", c.phones);
    CleanConcat(a + n + e, t);
    FieldClean("ORG", OrEmpty(c.org));
    CleanConcat(a + n + e + t, FieldOf("ORG", c.org));
    FieldClean("NOTE", OrEmpty(c.note));
    CleanConcat(a + n + e + t + FieldOf("ORG", c.org), FieldOf("NOTE", c.note));
  }

  lemma LongerHead(fields: seq<string>, longer: string)
    requires fields != [] && AllNamed(fields) && fields[|fields| - 1] <= longer
    ensures TakeAll(START, ["BEGIN:VCARD"] + (fields[..|fields| - 1] + [longer])).card.extra == []
  {
    TakeBegin();
    TakeOne(START, "BEGIN:VCARD");
    var last := fields[|fields| - 1];
    assert Named(last) && longer == last + longer[|last|..];
    SplitLonger(last, longer[|last|..]);
    var q := fields[..|fields| - 1] + [longer];
    TakeInTurn(START, ["BEGIN:VCARD"], q);
    TakeNamed(Reading(true, false, EMPTY), q);
  }

  // The lines of a card whose extra lines may be swallowed by the lines before them.
  lemma BlankExtraIsLost(fields: seq<string>, extra: seq<string>)
    requires fields != [] && AllNamed(fields)
    requires exists line <- extra :: StartsBlank(line)
    ensures |TakeAll(START, AbsorbAll(["BEGIN:VCARD"] + fields, extra)).card.extra| < |extra|
  {
    var h := ["BEGIN:VCARD"] + fields;
    var m := AbsorbAll(h, extra);
    AbsorbCount(h, extra);
    AbsorbBehind(h, extra);
    var n := |h|;
    var longer := m[n - 1];
    assert h[..n - 1] == ["BEGIN:VCARD"] + fields[..|fields| - 1];
    assert m == (["BEGIN:VCARD"] + (fields[..|fields| - 1] + [longer])) + m[n..];
    LongerHead(fields, longer);
    TakeInTurn(START, ["BEGIN:VCARD"] + (fields[..|fields| - 1] + [longer]), m[n..]);
    TakeExtras(TakeAll(START, ["BEGIN:VCARD"] + (fields[..|fields| - 1] + [longer])), m[n..]);
  }

  lemma EndStaysApart(m: seq<string>)
    ensures AbsorbAll(m, ["END:VCARD"]) == m + ["END:VCARD"]
  {
    AbsorbPlain(m, ["END:VCARD"]);
  }

  lemma BlankExtraDoesNotReturn(c: Contact, newId: string)
    requires exists line <- c.extra :: StartsBlank(line)
    ensures Parsed(AbsorbAll([], CardLines(c, newId))) != Some(c)
  {
    var fields := FieldLines(c, newId);
    var h := ["BEGIN:VCARD"] + fields;
    assert fields != [] && AllNamed(fields) && CleanLines(fields) by {
      TakeFieldLines(c, newId);
      FieldLinesClean(c, newId);
    }
    assert AbsorbAll([], h) == h by {
      AbsorbPlain([], h);
      assert [] + h == h;
    }
    assert CardLines(c, newId) == h + (c.extra + ["END:VCARD"]);
    AbsorbInTurn([], h, c.extra + ["END:VCARD"]);
    AbsorbInTurn(h, c.extra, ["END:VCARD"]);
    EndStaysApart(AbsorbAll(h, c.extra));
    TakeThenEnd(AbsorbAll(h, c.extra));
    BlankExtraIsLost(fields, c.extra);
  }

  lemma ParsedLinesIff(c: Contact, newId: string)
    requires newId != "" && '\r' !in newId
    requires CleanLines(c.extra)
    ensures Parsed(CardLines(c, newId)) == Some(c) <==> Survives(c)
  {
    var h := Head(c, newId);
    TakeHead(c, newId);
    TakeInTurn(START, h, c.extra);
    TakeThenEnd(h + c.extra);
    var r := Reading(true, false, Back(c, newId));
    TakeExtras(r, c.extra);
    BackIff(c, newId);
    if forall line <- c.extra :: Kept(line) {
      TakeKept(r, c.extra);
      assert [] + c.extra == c.extra;
    }
  }

  lemma NewlineExtraDoesNotReturn(c: Contact, text: string)
    requires !forall line <- c.extra :: NoNewline(line)
    ensures FromVcard(text) != Some(c)
  {
    UnfoldNoNewline(text);
    TakeExtras(START, Unfolded(text));
  }

  lemma CleanCard(c: Contact, newId: string)
    requires forall line <- c.extra :: NoNewline(line)
    ensures forall line <- CardLines(c, newId) :: NoNewline(line)
    ensures CleanLines(c.extra) ==> CleanLines(CardLines(c, newId))
  {
    FieldLinesClean(c, newId);
    var fields := FieldLines(c, newId);
    forall line <- CardLines(c, newId) ensures NoNewline(line) && (CleanLines(c.extra) ==> !StartsBlank(line)) {
      assert line in ["BEGIN:VCARD"] || line in fields || line in c.extra || line in ["END:VCARD"];
    }
  }

  lemma FoldableCardIff(c: Contact, newId: string)
    requires newId != "" && '\r' !in newId && CleanLines(CardLines(c, newId))
    requires forall line <- c.extra :: NoNewline(line)
    requires CleanLines(c.extra)
    ensures Parsed(AbsorbAll([], CardLines(c, newId))) == Some(c) <==> Survives(c)
  {
    AbsorbPlain([], CardLines(c, newId));
    assert [] + CardLines(c, newId) == CardLines(c, newId);
    ParsedLinesIff(c, newId);
  }

  lemma UnfoldedCard(c: Contact, newId: string)
    requires AllText(c) && Utf8(newId) && forall line <- c.extra :: NoNewline(line)
    ensures FromVcard(ToVcard(c, newId)) == Parsed(AbsorbAll([], CardLines(c, newId)))
  {
    CardLinesAreText(c, newId);
    CleanCard(c, newId);
    UnfoldFold(CardLines(c, newId));
  }

  /** Printing and parsing returns the same contact exactly for the contacts that survive. */
  lemma VCardRoundTripIff(c: Contact, newId: string)
    requires AllText(c) && Utf8(newId) && newId != "" && '\r' !in newId
    ensures FromVcard(ToVcard(c, newId)) == Some(c) <==> Survives(c)
  {
    if !forall line <- c.extra :: NoNewline(line) {
      NewlineExtraDoesNotReturn(c, ToVcard(c, newId));
    } else {
      UnfoldedCard(c, newId);
      if CleanLines(c.extra) {
        CleanCard(c, newId);
        FoldableCardIff(c, newId);
      } else {
        BlankExtraDoesNotReturn(c, newId);
      }
    }
  }

  // ---- The loops of the program ----

  lemma Associate<T>(d: seq<T>, a: seq<T>, n: seq<T>, e: seq<T>, t: seq<T>, o: seq<T>, x: seq<T>)
    ensures d + a + n + e + t + o + x == d + (a + n + e + t + o + x)
  {
  }

  method PrintFirstFields(out: string, c: Contact, newId: string, ghost done: seq<string>) returns (r: string)
    requires Texts(done) && out == FoldAll(done) && Utf8(c.uid) && Utf8(newId) && Utf8(c.formattedName)
    ensures Texts(done + FirstFields(c, newId)) && r == FoldAll(done + FirstFields(c, newId))
  {
    Names();
    r := Put(out, "VERSION:4.0", done);
    var uid := if c.uid == "" then newId else c.uid;
    r := PutField(r, "UID", uid, done + ["VERSION:4.0"]);
    r := PutField(r, "FN", c.formattedName, done + ["VERSION:4.0"] + [Field("UID", uid)]);
    Three(done, "VERSION:4.0", Field("UID", uid), Field("FN", c.formattedName));
  }

  method PrintFields(out: string, c: Contact, newId: string, ghost done: seq<string>) returns (r: string)
    requires AllText(c) && Utf8(newId) && Texts(done) && out == FoldAll(done)
    ensures Texts(done + FieldLines(c, newId)) && r == FoldAll(done + FieldLines(c, newId))
  {
    Names();
    NameLineIsText(c);
    r := PrintFirstFields(out, c, newId, done);
    r := PutLines(r, NameLine(c), done + FirstFields(c, newId));
    r := PutFields(r, "EMAIL", c.emails, done + FirstFields(c, newId) + NameLine(c));
    ghost var d := done + FirstFields(c, newId) + NameLine(c) + Fields("EMAIL", c.emails);
    r := PutFields(r, "TEL", c.phones, d);
    r := PutOptional(r, "ORG", c.org, d + Fields("TEL", c.phones));
    r := PutOptional(r, "NOTE", c.note, d + Fields("TEL", c.phones) + FieldOf("ORG", c.org));
    Associate(done, FirstFields(c, newId), NameLine(c), Fields("EMAIL", c.emails), Fields("TEL", c.phones), FieldOf("ORG", c.org), FieldOf("NOTE", c.note));
  }

  method PrintVcard(c: Contact, newId: string) returns (out: string)
    requires AllText(c) && Utf8(newId)
    ensures out == ToVcard(c, newId)
  {
    Names();
    out := Put("", "BEGIN:VCARD", []);
    assert [] + ["BEGIN:VCARD"] == ["BEGIN:VCARD"];
    out := PrintFields(out, c, newId, ["BEGIN:VCARD"]);
    out := PutLines(out, c.extra, ["BEGIN:VCARD"] + FieldLines(c, newId));
    out := Put(out, "END:VCARD", ["BEGIN:VCARD"] + FieldLines(c, newId) + c.extra);
  }

  lemma Names()
    ensures Utf8("UID" + ":") && Utf8("FN" + ":") && Utf8("EMAIL" + ":") && Utf8("TEL" + ":") && Utf8("ORG" + ":") && Utf8("NOTE" + ":")
    ensures Utf8("BEGIN:VCARD") && Utf8("VERSION:4.0") && Utf8("END:VCARD")
  {
    AsciiIsText("UID" + ":", 0);
    AsciiIsText("FN" + ":", 0);
    AsciiIsText("EMAIL" + ":", 0);
    AsciiIsText("TEL" + ":", 0);
    AsciiIsText("ORG" + ":", 0);
    AsciiIsText("NOTE" + ":", 0);
    AsciiIsText("BEGIN:VCARD", 0);
    AsciiIsText("VERSION:4.0", 0);
    AsciiIsText("END:VCARD", 0);
  }

  lemma {:induction false} EndedStays(r: Reading, lines: seq<string>)
    requires r.ended
    ensures TakeAll(r, lines) == r
  {
    if lines != [] {
      EndedStays(r, lines[..|lines| - 1]);
    }
  }

  lemma TakeStep(r: Reading, lines: seq<string>, k: nat)
    requires k < |lines|
    ensures TakeAll(r, lines[..k + 1]) == Take(TakeAll(r, lines[..k]), lines[k])
  {
    assert lines[..k + 1] == lines[..k] + [lines[k]];
    TakeLast(r, lines[..k], lines[k]);
  }

  lemma EndReached(r: Reading, lines: seq<string>, k: nat)
    requires k <= |lines| && TakeAll(r, lines[..k]).ended
    ensures TakeAll(r, lines) == TakeAll(r, lines[..k])
  {
    assert lines == lines[..k] + lines[k..];
    TakeInTurn(r, lines[..k], lines[k..]);
    EndedStays(TakeAll(r, lines[..k]), lines[k..]);
  }

  method ParseVcard(input: string) returns (contact: Option<Contact>)
    ensures contact == FromVcard(input)
  {
    var lines := Unfold(input);
    var inCard, c := false, EMPTY;
    for k := 0 to |lines|
      invariant TakeAll(START, lines[..k]) == Reading(inCard, false, c)
    {
      TakeStep(START, lines, k);
      var p := SplitProp(lines[k]);
      if p.Some? {
        var name, value := p.value.name, p.value.value;
        if name == "BEGIN" && Upper(value) == "VCARD" {
          inCard := true;
        } else if name == "END" && Upper(value) == "VCARD" {
          EndReached(START, lines, k + 1);
          return if inCard then Some(c) else None;
        } else if inCard && name != "VERSION" {
          c := TakeProperty(c, name, value, lines[k]);
        }
      }
    }
    assert lines[..|lines|] == lines;
    contact := if inCard then Some(c) else None;
  }
}
