/** The text a contact is printed as, line by line, and what the parser makes of the lines of any writer. */
module VCardForm {
  import opened Wrappers
  import opened TextCodec
  import opened PropertyLines
  import opened VCard

  // ---- The printed lines ----

  predicate HasName(c: Contact) {
    c.familyName.Some? || c.givenName.Some?
  }

  // One line for each value, in order.
  predicate OneEach(lines: seq<string>, prefix: string, values: seq<string>) {
    |lines| == |values| && forall i :: 0 <= i < |values| ==> lines[i] == prefix + Escape(values[i])
  }

  predicate OneIfAny(lines: seq<string>, prefix: string, value: Option<string>) {
    if value.Some? then lines == [prefix + Escape(value.value)] else lines == []
  }

  predicate OpensCard(lines: seq<string>, c: Contact, newId: string) {
    && |lines| == 4
    && lines[0] == "BEGIN:VCARD" && lines[1] == "VERSION:4.0"
    && lines[2] == "UID:" + Escape(if c.uid == "" then newId else c.uid)
    && lines[3] == "FN:" + Escape(c.formattedName)
  }

  predicate GivesName(lines: seq<string>, c: Contact) {
    if HasName(c)
    then lines == ["N:" + (Escape(if c.familyName.Some? then c.familyName.value else "")
                           + ";" + Escape(if c.givenName.Some? then c.givenName.value else "") + ";;;")]
    else lines == []
  }

  lemma {:induction false} FieldsForm(name: string, prefix: string, values: seq<string>)
    requires prefix == name + ":"
    ensures OneEach(Fields(name, values), prefix, values)
  {
    if values != [] {
      FieldsForm(name, prefix, values[..|values| - 1]);
    }
  }

  lemma OpeningForm(c: Contact, newId: string)
    ensures OpensCard(["BEGIN:VCARD"] + FirstFields(c, newId), c, newId)
  {
    assert "UID" + ":" == "UID:" && "FN" + ":" == "FN:";
  }

  lemma NameForm(c: Contact)
    ensures GivesName(NameLine(c), c)
  {
    assert "N" + ":" == "N:";
  }

  /** Line by line what a contact is printed as: which properties, under which names, in which order, and nothing else. */
  lemma PrintedCard(c: Contact, newId: string)
      returns (opening: seq<string>, name: seq<string>, emails: seq<string>, phones: seq<string>, org: seq<string>, note: seq<string>)
    requires AllText(c) && Utf8(newId)
    ensures var lines := opening + name + emails + phones + org + note + c.extra + ["END:VCARD"];
            Texts(lines) && ToVcard(c, newId) == FoldAll(lines)
    ensures OpensCard(opening, c, newId) && GivesName(name, c)
    ensures OneEach(emails, "EMAIL:", c.emails) && OneEach(phones, "TEL:", c.phones)
    ensures OneIfAny(org, "ORG:", c.org) && OneIfAny(note, "NOTE:", c.note)
  {
    opening, name := ["BEGIN:VCARD"] + FirstFields(c, newId), NameLine(c);
    emails, phones := Fields("EMAIL", c.emails), Fields("TEL", c.phones);
    org, note := FieldOf("ORG", c.org), FieldOf("NOTE", c.note);
    CardLinesAreText(c, newId);
    Associate(["BEGIN:VCARD"], FirstFields(c, newId), name, emails, phones, org, note);
    OpeningForm(c, newId);
    NameForm(c);
    FieldsForm("EMAIL", "EMAIL:", c.emails);
    FieldsForm("TEL", "TEL:", c.phones);
    assert "ORG" + ":" == "ORG:" && "NOTE" + ":" == "NOTE:";
  }

  // ---- Which lines are read ----

  predicate Begins(line: string) {
    SplitProp(line).Some? && SplitProp(line).value.name == "BEGIN" && Upper(SplitProp(line).value.value) == "VCARD"
  }

  predicate Ends(line: string) {
    SplitProp(line).Some? && SplitProp(line).value.name == "END" && Upper(SplitProp(line).value.value) == "VCARD"
  }

  predicate Unmarked(lines: seq<string>) {
    forall line <- lines :: !Begins(line) && !Ends(line)
  }

  predicate BeginsAt(lines: seq<string>, b: nat) {
    b < |lines| && Begins(lines[b]) && forall i :: 0 <= i < b ==> !Ends(lines[i])
  }

  ghost predicate AnyBegin(lines: seq<string>) {
    exists b: nat :: BeginsAt(lines, b)
  }

  predicate AnyEnd(lines: seq<string>) {
    exists line <- lines :: Ends(line)
  }

  lemma LastMark(front: seq<string>, last: string)
    ensures AnyBegin(front + [last]) <==> AnyBegin(front) || (Begins(last) && !AnyEnd(front))
    ensures AnyEnd(front + [last]) <==> AnyEnd(front) || Ends(last)
  {
    var lines := front + [last];
    if b: nat :| BeginsAt(front, b) {
      assert BeginsAt(lines, b);
    } else if Begins(last) && !AnyEnd(front) {
      assert BeginsAt(lines, |front|);
    }
    if b: nat :| BeginsAt(lines, b) {
      if b < |front| {
        forall i | 0 <= i < b ensures !Ends(front[i]) {
          assert lines[i] == front[i];
        }
        assert BeginsAt(front, b);
      } else {
        forall line <- front ensures !Ends(line) {
          var i :| 0 <= i < |front| && front[i] == line;
          assert lines[i] == line;
        }
      }
    }
    assert last in lines && forall line <- front :: line in lines;
  }

  lemma {:induction false} MarksDecide(lines: seq<string>)
    ensures TakeAll(START, lines).inCard <==> AnyBegin(lines)
    ensures TakeAll(START, lines).ended <==> AnyEnd(lines)
  {
    if lines != [] {
      MarksDecide(lines[..|lines| - 1]);
      LastMark(lines[..|lines| - 1], lines[|lines| - 1]);
      assert lines == lines[..|lines| - 1] + [lines[|lines| - 1]];
    }
  }

  /** A contact is read exactly if a begin mark stands before every end mark. */
  lemma ReadsCardIff(lines: seq<string>)
    ensures Parsed(lines).Some? <==> AnyBegin(lines)
  {
    MarksDecide(lines);
  }

  lemma {:induction false} NothingBefore(lines: seq<string>)
    requires Unmarked(lines)
    ensures TakeAll(START, lines) == START
  {
    if lines != [] {
      assert lines[|lines| - 1] in lines;
      NothingBefore(lines[..|lines| - 1]);
    }
  }

  /** What stands before the first mark and behind the end mark is not read. */
  lemma OutsideIgnored(before: seq<string>, card: seq<string>, after: seq<string>)
    requires Unmarked(before) && card != [] && Ends(card[|card| - 1])
    ensures Parsed(before + card + after) == Parsed(card)
  {
    NothingBefore(before);
    TakeInTurn(START, before, card);
    TakeInTurn(START, before + card, after);
    EndedStays(TakeAll(START, card), after);
  }

  // ---- What a line of a card does ----

  // A card begun by one line and not ended yet.
  function Open(begin: string, inside: seq<string>): seq<string> {
    [begin] + inside
  }

  lemma UnmarkedStays(r: Reading, line: string)
    requires r.inCard && !r.ended && !Begins(line) && !Ends(line)
    ensures Take(r, line).inCard && !Take(r, line).ended
  {
  }

  lemma {:induction false} OpenCard(begin: string, inside: seq<string>)
    requires Begins(begin) && Unmarked(inside)
    ensures var r := TakeAll(START, Open(begin, inside)); r.inCard && !r.ended
    ensures inside == [] ==> TakeAll(START, Open(begin, inside)).card == EMPTY
  {
    if inside == [] {
      assert Open(begin, inside) == [] + [begin];
      TakeLast(START, [], begin);
    } else {
      var k := |inside| - 1;
      assert inside[k] in inside;
      OpenCard(begin, inside[..k]);
      assert Open(begin, inside) == Open(begin, inside[..k]) + [inside[k]];
      TakeLast(START, Open(begin, inside[..k]), inside[k]);
      UnmarkedStays(TakeAll(START, Open(begin, inside[..k])), inside[k]);
    }
  }

  lemma OneMoreLine(begin: string, inside: seq<string>, line: string)
    requires Begins(begin) && Unmarked(inside)
    ensures Parsed(Open(begin, inside)).Some?
    ensures TakeAll(START, Open(begin, inside + [line])) == Take(TakeAll(START, Open(begin, inside)), line)
  {
    OpenCard(begin, inside);
    assert Open(begin, inside + [line]) == Open(begin, inside) + [line];
    TakeLast(START, Open(begin, inside), line);
  }

  // Up to the next ';' of a structured value.
  predicate Component(part: string, rest: string) {
    ';' !in part && (rest == "" || rest[0] == ';')
  }

  lemma ComponentEnds(part: string, rest: string)
    requires Component(part, rest)
    ensures Find(part + rest, ';') == |part| && UpTo(part + rest, ';') == part
  {
    FindUnique(part + rest, ';', |part|);
  }

  /** A card starts empty; a uid, a formatted name, an organisation or a note replaces the one before, e-mail addresses and telephone numbers add up. */
  lemma LineSetsField(begin: string, inside: seq<string>, name: string, line: string, value: string)
    requires Begins(begin) && Unmarked(inside) && SplitProp(line) == Some(Property(name, value))
    ensures Parsed([begin]) == Some(Contact("", "", None, None, [], [], None, None, []))
    ensures Parsed(Open(begin, inside)).Some?
    ensures var c, after := Parsed(Open(begin, inside)).value, Parsed(Open(begin, inside + [line]));
            && (name == "UID" ==> after == Some(c.(uid := Unescape(value))))
            && (name == "FN" ==> after == Some(c.(formattedName := Unescape(value))))
            && (name == "EMAIL" ==> after == Some(c.(emails := c.emails + [Unescape(value)])))
            && (name == "TEL" ==> after == Some(c.(phones := c.phones + [Unescape(value)])))
            && (name == "ORG" ==> after == Some(c.(org := Some(Unescape(value)))))
            && (name == "NOTE" ==> after == Some(c.(note := Some(Unescape(value)))))
            && (name == "VERSION" ==> after == Some(c))
  {
    OpenCard(begin, []);
    OpenCard(begin, inside);
    assert Open(begin, []) == [begin];
    OneMoreLine(begin, inside, line);
  }

  lemma NameComponents(family: string, given: string, rest: string)
    requires ';' !in family && Component(given, rest)
    ensures var value := family + (";" + (given + rest));
            && FamilyPart(value) == NonEmpty(Unescape(family))
            && GivenPart(value) == NonEmpty(Unescape(given))
    ensures FamilyPart(family) == NonEmpty(Unescape(family)) && GivenPart(family) == None
  {
    var value := family + (";" + (given + rest));
    ComponentEnds(family, ";" + (given + rest));
    assert value[|family| + 1..] == given + rest;
    ComponentEnds(given, rest);
    ComponentEnds(family, "");
    assert family + "" == family;
  }

  /** A name line gives both name parts anew: the first component and the second, each missing when it is empty; without a ';' it is a family name alone. */
  lemma LineSetsName(begin: string, inside: seq<string>, line: string, value: string, family: string, given: string, rest: string)
    requires Begins(begin) && Unmarked(inside) && ';' !in family && Component(given, rest)
    requires SplitProp(line) == Some(Property("N", value))
    ensures Parsed(Open(begin, inside)).Some?
    ensures var c, after := Parsed(Open(begin, inside)).value, Parsed(Open(begin, inside + [line]));
            var f, g := NonEmpty(Unescape(family)), NonEmpty(Unescape(given));
            && (value == family + (";" + (given + rest)) ==> after == Some(c.(familyName := f, givenName := g)))
            && (value == family ==> after == Some(c.(familyName := f, givenName := None)))
  {
    OpenCard(begin, inside);
    OneMoreLine(begin, inside, line);
    NameComponents(family, given, rest);
  }

  /** Any other property line but a mark is kept whole, and a line without ':' is passed over. */
  lemma LineKeptWhole(begin: string, inside: seq<string>, line: string)
    requires Begins(begin) && Unmarked(inside + [line])
    ensures Parsed(Open(begin, inside)).Some?
    ensures var c, after := Parsed(Open(begin, inside)).value, Parsed(Open(begin, inside + [line]));
            match SplitProp(line)
            case None => after == Some(c)
            case Some(p) =>
              p.name !in {"UID", "FN", "N", "EMAIL", "TEL", "ORG", "NOTE", "VERSION"} ==> after == Some(c.(extra := c.extra + [line]))
  {
    assert line in inside + [line];
    forall l <- inside ensures !Begins(l) && !Ends(l) {
      assert l in inside + [line];
    }
    OpenCard(begin, inside);
    OneMoreLine(begin, inside, line);
  }
}
