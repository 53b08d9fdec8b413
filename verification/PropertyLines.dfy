/** Property lines, `NAME;PARAMETERS:VALUE`, as contacts and calendar entries share them. */
module PropertyLines {
  import opened Wrappers
  import opened TextCodec

  // The first index of c at or after k, or |s|.
  function Find(s: string, c: char, k: nat := 0): (i: nat)
    requires k <= |s|
    ensures k <= i <= |s| && (i < |s| ==> s[i] == c)
    ensures forall j :: k <= j < i ==> s[j] != c
    decreases |s| - k
  {
    if k == |s| || s[k] == c then k else Find(s, c, k + 1)
  }

  function UpperChar(c: char): char {
    if 'a' <= c <= 'z' then (c as int - 32) as char else c
  }

  function Upper(s: string): (u: string)
    ensures |u| == |s| && forall k :: 0 <= k < |s| ==> u[k] == UpperChar(s[k])
  {
    seq(|s|, k requires 0 <= k < |s| => UpperChar(s[k]))
  }

  /** Upper case is that of the ASCII letters; every other character stays. */
  lemma UpperMeaning(s: string, k: nat)
    requires k < |s|
    ensures Upper("abcdefghijklmnopqrstuvwxyz") == "ABCDEFGHIJKLMNOPQRSTUVWXYZ"
    ensures !('a' <= s[k] <= 'z') ==> Upper(s)[k] == s[k]
  {
  }

  datatype Property = Property(name: string, value: string)

  // The name is what stands before the first ';' before the first ':', in upper case.
  function SplitProp(line: string): Option<Property> {
    var colon := Find(line, ':');
    if colon == |line| then None
    else
      var head := line[..colon];
      Some(Property(Upper(head[..Find(head, ';')]), line[colon + 1..]))
  }

  predicate PlainName(name: string) {
    ':' !in name && ';' !in name && Upper(name) == name
  }

  lemma FindUnique(s: string, c: char, i: nat)
    requires i <= |s| && (i < |s| ==> s[i] == c) && forall j :: 0 <= j < i ==> s[j] != c
    ensures Find(s, c) == i
  {
  }

  /** A property line splits into its name in upper case and everything behind the first ':', and its parameters are dropped; a line without ':' is none. */
  lemma SplitParts(name: string, parameters: string, value: string)
    requires ':' !in name && ';' !in name && ':' !in parameters && (parameters != "" ==> parameters[0] == ';')
    ensures SplitProp(name + parameters + ":" + value) == Some(Property(Upper(name), value))
    ensures SplitProp(name + parameters) == None
  {
    var head := name + parameters;
    var line := head + ":" + value;
    FindUnique(line, ':', |head|);
    FindUnique(head, ':', |head|);
    assert line[..|head|] == head && line[|head| + 1..] == value;
    FindUnique(head, ';', |name|);
    assert head[..|name|] == name;
  }

  lemma SplitPlain(name: string, value: string)
    requires PlainName(name)
    ensures SplitProp(name + ":" + value) == Some(Property(name, value))
  {
    SplitParts(name, "", value);
    assert name + "" == name;
  }

  // More text behind a property line is more value.
  lemma SplitLonger(line: string, more: string)
    requires SplitProp(line).Some?
    ensures SplitProp(line + more) == Some(Property(SplitProp(line).value.name, SplitProp(line).value.value + more))
  {
    var colon := Find(line, ':');
    FindUnique(line + more, ':', colon);
    assert (line + more)[..colon] == line[..colon];
    assert (line + more)[colon + 1..] == line[colon + 1..] + more;
  }

  // ---- Whole characters ----

  lemma {:induction false} AsciiIsText(s: string, i: nat)
    requires i <= |s| && forall k :: 0 <= k < |s| ==> s[k] as int < 0x80
    ensures Utf8(s, i)
    decreases |s| - i
  {
    if i < |s| {
      AsciiIsText(s, i + 1);
    }
  }

  lemma {:induction false} TextShifted(a: string, b: string, j: nat)
    requires j <= |b| && Utf8(b, j)
    ensures Utf8(a + b, |a| + j)
    decreases |b| - j
  {
    if j < |b| {
      TextShifted(a, b, j + Width(b[j]));
      assert (a + b)[|a| + j] == b[j];
    }
  }

  lemma {:induction false} TextThenText(a: string, b: string, i: nat)
    requires i <= |a| && Utf8(a, i) && Utf8(b)
    ensures Utf8(a + b, i)
    decreases |a| - i
  {
    if i == |a| {
      TextShifted(a, b, 0);
    } else {
      TextThenText(a, b, i + Width(a[i]));
    }
  }

  lemma TextConcat(a: string, b: string)
    requires Utf8(a) && Utf8(b)
    ensures Utf8(a + b)
  {
    TextThenText(a, b, 0);
  }

  lemma EscapeHead(s: string, i: nat)
    requires i < |s|
    ensures Escape(s[i..]) == EscapeChar(s[i]) + Escape(s[i + 1..])
  {
    assert s[i..][0] == s[i] && s[i..][1..] == s[i + 1..];
  }

  lemma {:induction false} EscapeNothing(s: string, i: nat, j: nat)
    requires i <= j <= |s| && forall k :: i <= k < j ==> s[k] as int >= 0x80
    ensures Escape(s[i..]) == s[i..j] + Escape(s[j..])
    decreases j - i
  {
    if i < j {
      EscapeHead(s, i);
      EscapeNothing(s, i + 1, j);
      Move([s[i]], s[i + 1..j], Escape(s[j..]));
      assert [s[i]] + s[i + 1..j] == s[i..j];
    } else {
      assert s[i..j] + Escape(s[j..]) == Escape(s[j..]);
    }
  }

  lemma EscapeCharIsText(c: char, rest: string)
    requires Width(c) == 1 && Utf8(rest)
    ensures Utf8(EscapeChar(c) + rest)
  {
    AsciiIsText(EscapeChar(c), 0);
    TextConcat(EscapeChar(c), rest);
  }

  // Escaping touches no character of more than one octet.
  lemma {:induction false} EscapeIsText(s: string, i: nat)
    requires i <= |s| && Utf8(s, i)
    ensures Utf8(Escape(s[i..]))
    decreases |s| - i
  {
    if i == |s| {
      assert s[i..] == "";
    } else {
      var w := Width(s[i]);
      var rest := Escape(s[i + w..]);
      assert Utf8(rest) by { EscapeIsText(s, i + w); }
      if w == 1 {
        EscapeHead(s, i);
        EscapeCharIsText(s[i], rest);
      } else {
        assert Utf8(s[i..i + w]) by { SliceIsText(s, i, i, i + w); }
        assert Escape(s[i..]) == s[i..i + w] + rest by { EscapeNothing(s, i, i + w); }
        TextConcat(s[i..i + w], rest);
      }
    }
  }

  lemma {:induction false} EscapeClean(s: string)
    ensures NoNewline(Escape(s)) && '\r' !in Escape(s)
    ensures ';' in Escape(s) <==> ';' in s
  {
    if s != "" {
      EscapeClean(s[1..]);
      assert s == [s[0]] + s[1..];
    }
  }

  lemma {:induction false} UnescapeNoSemicolon(s: string)
    requires ';' !in s
    ensures ';' !in Unescape(s)
    decreases |s|
  {
    if s == "" {
    } else if s[0] != '\\' {
      UnescapeNoSemicolon(s[1..]);
    } else if |s| > 1 {
      UnescapeNoSemicolon(s[2..]);
    }
  }

  predicate Texts(lines: seq<string>) {
    forall line <- lines :: Utf8(line)
  }

  lemma TextsConcat(a: seq<string>, b: seq<string>)
    requires Texts(a) && Texts(b)
    ensures Texts(a + b)
  {
  }

  // ---- Printing ----

  // Strings of the program are sequences of whole characters.
  predicate IsText(o: Option<string>) {
    o.Some? ==> Utf8(o.value)
  }

  function Field(name: string, value: string): string {
    name + ":" + Escape(value)
  }

  function FieldOf(name: string, value: Option<string>): seq<string> {
    if value.Some? then [Field(name, value.value)] else []
  }

  function Fields(name: string, values: seq<string>): seq<string> {
    if values == [] then [] else Fields(name, values[..|values| - 1]) + [Field(name, values[|values| - 1])]
  }

  function OrEmpty(o: Option<string>): string {
    if o.Some? then o.value else ""
  }

  function UidOf(uid: string, newId: string): string {
    if uid == "" then newId else uid
  }

  lemma {:induction false} FieldsAreText(name: string, values: seq<string>)
    requires Utf8(name + ":") && Texts(values)
    ensures Texts(Fields(name, values))
  {
    if values != [] {
      FieldsAreText(name, values[..|values| - 1]);
      FieldIsText(name, values[|values| - 1]);
    }
  }

  lemma FieldIsText(name: string, value: string)
    requires Utf8(name + ":") && Utf8(value)
    ensures Utf8(Field(name, value))
  {
    assert value[0..] == value;
    EscapeIsText(value, 0);
    TextConcat(name + ":", Escape(value));
  }

  lemma FieldOfIsText(name: string, value: Option<string>)
    requires Utf8(name + ":") && IsText(value)
    ensures Texts(FieldOf(name, value))
  {
    if value.Some? {
      FieldIsText(name, value.value);
    }
  }

  lemma {:induction false} FoldAllLast(lines: seq<string>, line: string)
    requires Texts(lines) && Utf8(line)
    ensures Texts(lines + [line]) && FoldAll(lines + [line]) == FoldAll(lines) + Folded(line)
  {
    TextsConcat(lines, [line]);
    if lines == [] {
      assert [] + [line] == [line] && [line][1..] == [];
      assert Folded(line) + "" == Folded(line) == "" + Folded(line);
    } else {
      FoldAllLast(lines[1..], line);
      assert (lines + [line])[1..] == lines[1..] + [line];
      assert FoldAll(lines + [line]) == Folded(lines[0]) + FoldAll(lines[1..] + [line]);
      Move(Folded(lines[0]), FoldAll(lines[1..]), Folded(line));
    }
  }

  // One more line behind those written.
  method Put(out: string, line: string, ghost done: seq<string>) returns (r: string)
    requires Texts(done) && Utf8(line) && out == FoldAll(done)
    ensures Texts(done + [line]) && r == FoldAll(done + [line])
  {
    FoldAllLast(done, line);
    r := FoldLine(line, out);
  }

  method PutField(out: string, name: string, value: string, ghost done: seq<string>) returns (r: string)
    requires Texts(done) && Utf8(name + ":") && Utf8(value) && out == FoldAll(done)
    ensures Texts(done + [Field(name, value)]) && r == FoldAll(done + [Field(name, value)])
  {
    var text := EscapeText(value);
    FieldIsText(name, value);
    r := Put(out, name + ":" + text, done);
  }

  // One property line for each value.
  method PutFields(out: string, name: string, values: seq<string>, ghost done: seq<string>) returns (r: string)
    requires Texts(done) && Utf8(name + ":") && Texts(values) && out == FoldAll(done)
    ensures Texts(done + Fields(name, values)) && r == FoldAll(done + Fields(name, values))
  {
    r := out;
    assert done + Fields(name, []) == done;
    assert values[..0] == [];
    for k := 0 to |values|
      invariant Texts(done + Fields(name, values[..k])) && r == FoldAll(done + Fields(name, values[..k]))
    {
      r := PutField(r, name, values[k], done + Fields(name, values[..k]));
      assert values[..k + 1][..k] == values[..k];
      assert done + Fields(name, values[..k + 1]) == done + Fields(name, values[..k]) + [Field(name, values[k])];
    }
    assert values[..|values|] == values;
  }

  lemma OneMore<T>(done: seq<T>, lines: seq<T>, k: nat)
    requires k < |lines|
    ensures done + lines[..k + 1] == done + lines[..k] + [lines[k]]
  {
  }

  method PutLines(out: string, lines: seq<string>, ghost done: seq<string>) returns (r: string)
    requires Texts(done) && Texts(lines) && out == FoldAll(done)
    ensures Texts(done + lines) && r == FoldAll(done + lines)
  {
    r := out;
    assert done + lines[..0] == done;
    for k := 0 to |lines|
      invariant Texts(done + lines[..k]) && r == FoldAll(done + lines[..k])
    {
      r := Put(r, lines[k], done + lines[..k]);
      OneMore(done, lines, k);
    }
    assert lines[..|lines|] == lines;
  }

  function WithoutCrOf(o: Option<string>): Option<string> {
    if o.Some? then Some(WithoutCr(o.value)) else None
  }

  predicate NoCr(o: Option<string>) {
    o.Some? ==> '\r' !in o.value
  }

  lemma WithoutCrOfSame(o: Option<string>)
    ensures WithoutCrOf(o) == o <==> NoCr(o)
  {
    if o.Some? {
      WithoutCrSame(o.value);
    }
  }

  predicate CleanLines(lines: seq<string>) {
    forall line <- lines :: NoNewline(line) && !StartsBlank(line)
  }

  lemma CleanConcat(a: seq<string>, b: seq<string>)
    requires CleanLines(a) && CleanLines(b)
    ensures CleanLines(a + b)
  {
  }

  lemma FieldClean(name: string, value: string)
    requires NoNewline(name) && name != "" && !Blank(name[0])
    ensures NoNewline(Field(name, value)) && !StartsBlank(Field(name, value))
  {
    EscapeClean(value);
  }

  // Lines that do not start blank leave those before alone; the others make the last of them longer.
  lemma {:induction false} AbsorbBehind(lines: seq<string>, more: seq<string>)
    requires lines != []
    ensures var r := AbsorbAll(lines, more);
            |r| >= |lines| && r[..|lines| - 1] == lines[..|lines| - 1] && lines[|lines| - 1] <= r[|lines| - 1]
    decreases more
  {
    if more != [] {
      AbsorbBehind(Absorb(lines, more[0]), more[1..]);
      var next := Absorb(lines, more[0]);
      assert next[..|lines| - 1] == lines[..|lines| - 1];
      assert lines[|lines| - 1] <= next[|lines| - 1];
    }
  }

  lemma MarkLine(name: string)
    requires PlainName(name)
    ensures SplitProp(name + ":" + "VCARD") == Some(Property(name, "VCARD")) && Upper("VCARD") == "VCARD"
  {
    SplitPlain(name, "VCARD");
  }

  lemma {:induction false} FieldsClean(name: string, values: seq<string>)
    requires NoNewline(name) && name != "" && !Blank(name[0])
    ensures CleanLines(Fields(name, values))
  {
    if values != [] {
      FieldsClean(name, values[..|values| - 1]);
      EscapeClean(values[|values| - 1]);
    }
  }

  method PutOptional(out: string, name: string, value: Option<string>, ghost done: seq<string>) returns (r: string)
    requires Texts(done) && Utf8(name + ":") && IsText(value) && out == FoldAll(done)
    ensures Texts(done + FieldOf(name, value)) && r == FoldAll(done + FieldOf(name, value))
  {
    if value.Some? {
      r := PutField(out, name, value.value, done);
    } else {
      r := out;
      assert done + [] == done;
    }
  }

  lemma Three<T>(d: seq<T>, a: T, b: T, c: T)
    ensures d + [a] + [b] + [c] == d + [a, b, c]
  {
  }
}
