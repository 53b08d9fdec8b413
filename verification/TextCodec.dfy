/**
 The line format that contacts and calendar entries share: long logical lines are folded into physical
 ones (section 3.1 of RFC 5545, section 3.2 of RFC 6350), and text values are escaped (section 3.3.11 of
 RFC 5545, section 3.4 of RFC 6350). Strings are UTF-8 octet strings, one character per octet.
 */
module TextCodec {
  import opened TextLines

  // ---- Characters and octets ----

  // The octets of a character after its first.
  predicate Continuation(c: char) {
    0x80 <= c as int < 0xC0
  }

  // The number of octets of the character that starts with c, or 0 if none does.
  function Width(c: char): nat {
    var n := c as int;
    if n < 0x80 then 1
    else if 0xC0 <= n < 0xE0 then 2
    else if 0xE0 <= n < 0xF0 then 3
    else if 0xF0 <= n < 0xF8 then 4
    else 0
  }

  // From octet i on, a sequence of whole characters.
  predicate Utf8(s: string, i: nat := 0)
    decreases |s| - i
  {
    i <= |s| && (
      i == |s| || (
        var w := Width(s[i]);
        0 < w <= |s| - i && (forall k :: i < k < i + w ==> Continuation(s[k])) && Utf8(s, i + w)))
  }

  // The nearest character boundary at or before `end`.
  function CutBack(s: string, end: nat): (cut: nat)
    requires end <= |s|
    ensures cut <= end
    ensures cut == 0 || cut == |s| || !Continuation(s[cut])
    ensures forall i :: cut < i <= end && i < |s| ==> Continuation(s[i])
  {
    if end > 0 && end < |s| && Continuation(s[end]) then CutBack(s, end - 1) else end
  }

  // No character has more than four octets.
  lemma {:induction false} BoundaryNear(s: string, start: nat, i: nat)
    requires Utf8(s, start) && start <= i && i + 3 < |s|
    ensures exists j :: i <= j <= i + 3 && !Continuation(s[j])
    decreases |s| - start
  {
    var w := Width(s[start]);
    if i == start {
      assert !Continuation(s[start]);
    } else if i >= start + w {
      BoundaryNear(s, start + w, i);
    } else {
      assert Utf8(s, start + w);
      assert !Continuation(s[start + w]);
    }
  }

  lemma {:induction false} BoundarySplits(s: string, start: nat, i: nat)
    requires Utf8(s, start) && start <= i <= |s| && (i < |s| ==> !Continuation(s[i]))
    ensures Utf8(s, i)
    decreases |s| - start
  {
    if start < i {
      var w := Width(s[start]);
      BoundarySplits(s, start + w, i);
    }
  }

  lemma {:induction false} SliceIsText(s: string, i: nat, k: nat, j: nat)
    requires i <= k <= j <= |s| && Utf8(s, k) && (j < |s| ==> !Continuation(s[j]))
    ensures Utf8(s[i..j], k - i)
    decreases j - k
  {
    if k < j {
      var w := Width(s[k]);
      assert k + w <= j;
      SliceIsText(s, i, k + w, j);
    }
  }

  // ---- Folding ----

  const LIMIT := 75

  predicate Blank(c: char) {
    c == ' ' || c == '\t'
  }

  predicate StartsBlank(line: string) {
    line != "" && Blank(line[0])
  }

  function Budget(start: nat): nat {
    if start == 0 then LIMIT else LIMIT - 1
  }

  // Where the piece that begins at `start` ends.
  function NextCut(line: string, start: nat): (end: nat)
    requires start < |line| && Utf8(line, start)
    ensures start < end <= |line| && end - start <= Budget(start)
    ensures Utf8(line, end) && (end < |line| ==> !Continuation(line[end]))
  {
    if |line| - start <= Budget(start) then |line|
    else
      BoundaryNear(line, start, start + Budget(start) - 3);
      var cut := CutBack(line, start + Budget(start));
      BoundarySplits(line, start, cut);
      cut
  }

  // The pieces a line is cut into, from `start` on.
  function Chunks(line: string, start: nat): seq<string>
    requires Utf8(line, start)
    decreases |line| - start
  {
    if start == |line| then []
    else [line[start..NextCut(line, start)]] + Chunks(line, NextCut(line, start))
  }

  function Continued(chunks: seq<string>): (lines: seq<string>)
    ensures |lines| == |chunks| && forall k :: 0 <= k < |lines| ==> lines[k] == " " + chunks[k]
  {
    seq(|chunks|, k requires 0 <= k < |chunks| => " " + chunks[k])
  }

  function Prefixed(chunks: seq<string>): seq<string> {
    if chunks == [] then [] else [chunks[0]] + Continued(chunks[1..])
  }

  // The physical lines of a logical one, without their line ends.
  function Physical(line: string): seq<string>
    requires Utf8(line)
  {
    if line == "" then [""] else Prefixed(Chunks(line, 0))
  }

  function Terminated(lines: seq<string>): string {
    if lines == [] then "" else lines[0] + "\r\n" + Terminated(lines[1..])
  }

  function Folded(line: string): string
    requires Utf8(line)
  {
    Terminated(Physical(line))
  }

  function FoldAll(lines: seq<string>): string
    requires forall line <- lines :: Utf8(line)
  {
    if lines == [] then "" else Folded(lines[0]) + FoldAll(lines[1..])
  }

  lemma {:induction false} TerminatedConcat(a: seq<string>, b: seq<string>)
    ensures Terminated(a + b) == Terminated(a) + Terminated(b)
  {
    if a == [] {
      assert a + b == b;
    } else {
      assert (a + b)[1..] == a[1..] + b;
      TerminatedConcat(a[1..], b);
    }
  }

  // What is written for the text from `start` on.
  function Pending(line: string, start: nat): string
    requires Utf8(line, start)
    decreases |line| - start
  {
    if start == |line| then ""
    else
      (if start == 0 then "" else " ") + line[start..NextCut(line, start)] + "\r\n" + Pending(line, NextCut(line, start))
  }

  lemma {:induction false} PendingContinued(line: string, start: nat)
    requires Utf8(line, start) && start > 0
    ensures Terminated(Continued(Chunks(line, start))) == Pending(line, start)
    decreases |line| - start
  {
    if start < |line| {
      var end := NextCut(line, start);
      PendingContinued(line, end);
      var lines := Continued(Chunks(line, start));
      assert lines[0] == " " + line[start..end];
      assert lines[1..] == Continued(Chunks(line, end));
    }
  }

  lemma PendingAll(line: string)
    requires Utf8(line) && line != ""
    ensures Pending(line, 0) == Folded(line)
  {
    var end := NextCut(line, 0);
    PendingContinued(line, end);
    var lines := Prefixed(Chunks(line, 0));
    assert lines[0] == line[0..end] && lines[1..] == Continued(Chunks(line, end));
    assert "" + line[0..end] == line[0..end];
  }

  lemma FoldShort(line: string)
    requires Utf8(line) && |line| <= LIMIT
    ensures Folded(line) == line + "\r\n"
  {
    if line != "" {
      PendingAll(line);
      assert NextCut(line, 0) == |line| && line[0..|line|] == line;
      assert Pending(line, 0) == "" + line + "\r\n" + "";
    } else {
      assert [""][1..] == [];
      assert Terminated([""]) == "" + "\r\n" + "";
    }
  }

  // The search for a character boundary, for one physical line.
  method CutPoint(line: string, start: nat, budget: nat) returns (end: nat)
    requires start < |line| && Utf8(line, start) && budget == Budget(start)
    ensures end == NextCut(line, start)
  {
    end := if start + budget < |line| then start + budget else |line|;
    while end < |line| && Continuation(line[end])
      invariant NextCut(line, start) <= end <= |line|
      invariant |line| - start <= budget ==> end == |line|
      invariant |line| - start > budget ==> end <= start + budget && CutBack(line, end) == CutBack(line, start + budget)
      decreases end
    {
      end := end - 1;
    }
  }

  lemma Reassociate(r: string, prefix: string, chunk: string, rest: string)
    ensures r + (prefix + chunk + "\r\n" + rest) == r + prefix + (chunk + "\r\n") + rest
    ensures prefix == "" ==> r + prefix == r
  {
  }

  /** The program's loop that cuts one line: it ends, and writes exactly the physical lines. */
  method FoldLine(line: string, out: string) returns (r: string)
    requires Utf8(line)
    ensures r == out + Folded(line)
  {
    if |line| <= LIMIT {
      FoldShort(line);
      return out + (line + "\r\n");
    }
    r := out;
    var start, first := 0, true;
    PendingAll(line);
    while start < |line|
      invariant start <= |line| && Utf8(line, start)
      invariant first <==> start == 0
      invariant r + Pending(line, start) == out + Folded(line)
      decreases |line| - start
    {
      var end := CutPoint(line, start, if first then LIMIT else LIMIT - 1);
      Reassociate(r, if first then "" else " ", line[start..end], Pending(line, end));
      if !first {
        r := r + " ";
      }
      r := r + (line[start..end] + "\r\n");
      start := end;
      first := false;
    }
  }

  // ---- Unfolding ----

  function StripCr(raw: string): string {
    if raw != "" && raw[|raw| - 1] == '\r' then raw[..|raw| - 1] else raw
  }

  // The last line, made longer.
  function Grow(lines: seq<string>, text: string): (longer: seq<string>)
    requires lines != []
    ensures |longer| == |lines|
  {
    lines[..|lines| - 1] + [lines[|lines| - 1] + text]
  }

  lemma GrowTwice(lines: seq<string>, a: string, b: string)
    requires lines != []
    ensures Grow(Grow(lines, a), b) == Grow(lines, a + b)
  {
    var last := lines[|lines| - 1];
    assert last + a + b == last + (a + b);
  }

  lemma GrowNew(lines: seq<string>, a: string, b: string)
    ensures Grow(lines + [a], b) == lines + [a + b]
  {
  }

  lemma GrowNothing(lines: seq<string>)
    requires lines != []
    ensures Grow(lines, "") == lines
  {
    assert lines[|lines| - 1] + "" == lines[|lines| - 1];
  }

  // A physical line that starts blank continues the line before it, if there is one.
  function Absorb(lines: seq<string>, line: string): seq<string> {
    if StartsBlank(line) && lines != []
    then Grow(lines, line[1..])
    else lines + [line]
  }

  function AbsorbAll(lines: seq<string>, more: seq<string>): seq<string>
    decreases more
  {
    if more == [] then lines else AbsorbAll(Absorb(lines, more[0]), more[1..])
  }

  function Stripped(raws: seq<string>): (lines: seq<string>)
    ensures |lines| == |raws| && forall k :: 0 <= k < |raws| ==> lines[k] == StripCr(raws[k])
  {
    seq(|raws|, k requires 0 <= k < |raws| => StripCr(raws[k]))
  }

  function DropLastEmpty(lines: seq<string>): seq<string> {
    if lines != [] && lines[|lines| - 1] == "" then lines[..|lines| - 1] else lines
  }

  function Unfolded(input: string): seq<string> {
    DropLastEmpty(AbsorbAll([], Stripped(SplitLines(input))))
  }

  /** The program's loop over the physical lines. */
  method Unfold(input: string) returns (lines: seq<string>)
    ensures lines == Unfolded(input)
  {
    lines := [];
    var raws := SplitLines(input);
    ghost var all := Stripped(raws);
    for k := 0 to |raws|
      invariant AbsorbAll(lines, all[k..]) == AbsorbAll([], all)
    {
      var line := StripCr(raws[k]);
      assert all[k..][0] == line && all[k..][1..] == all[k + 1..];
      if StartsBlank(line) && lines != [] {
        lines := lines[..|lines| - 1] + [lines[|lines| - 1] + line[1..]];
      } else {
        lines := lines + [line];
      }
    }
    assert all[|raws|..] == [];
    if lines != [] && lines[|lines| - 1] == "" {
      lines := lines[..|lines| - 1];
    }
  }

  lemma {:induction false} AbsorbInTurn(lines: seq<string>, a: seq<string>, b: seq<string>)
    ensures AbsorbAll(lines, a + b) == AbsorbAll(AbsorbAll(lines, a), b)
    decreases a
  {
    if a == [] {
      assert a + b == b;
    } else {
      assert (a + b)[1..] == a[1..] + b;
      AbsorbInTurn(Absorb(lines, a[0]), a[1..], b);
    }
  }

  predicate NoNewline(line: string) {
    '\n' !in line
  }

  lemma StrippedCons(raw: string, raws: seq<string>)
    ensures Stripped([raw] + raws) == [StripCr(raw)] + Stripped(raws)
  {
  }

  lemma OneTerminated(line: string, rest: string)
    requires NoNewline(line)
    ensures Stripped(SplitLines(line + "\r\n" + rest)) == [line] + Stripped(SplitLines(rest))
  {
    assert line + "\r\n" + rest == (line + "\r") + "\n" + rest;
    SplitAtNewline(line + "\r", rest);
    StrippedCons(line + "\r", SplitLines(rest));
    assert StripCr(line + "\r") == line;
  }

  // Reading terminated lines without newlines gives those lines, and an empty one behind the last line end.
  lemma {:induction false} SplitTerminated(lines: seq<string>)
    requires forall line <- lines :: NoNewline(line)
    ensures Stripped(SplitLines(Terminated(lines))) == lines + [""]
  {
    if lines == [] {
      assert SplitLines("") == [""];
      assert Stripped([""]) == [""];
    } else {
      assert NoNewline(lines[0]);
      OneTerminated(lines[0], Terminated(lines[1..]));
      SplitTerminated(lines[1..]);
      assert [lines[0]] + (lines[1..] + [""]) == lines + [""];
    }
  }

  lemma AbsorbCons(lines: seq<string>, line: string, more: seq<string>)
    ensures AbsorbAll(lines, [line] + more) == AbsorbAll(Absorb(lines, line), more)
  {
    assert ([line] + more)[1..] == more;
  }

  lemma AbsorbChunk(lines: seq<string>, chunk: string)
    requires lines != []
    ensures Absorb(lines, " " + chunk) == Grow(lines, chunk)
  {
    assert (" " + chunk)[1..] == chunk;
  }

  lemma ContinuedHead(line: string, start: nat)
    requires Utf8(line, start) && start < |line|
    ensures var end := NextCut(line, start);
            Continued(Chunks(line, start)) == [" " + line[start..end]] + Continued(Chunks(line, end))
  {
  }

  lemma AbsorbNextChunk(lines: seq<string>, line: string, start: nat)
    requires lines != [] && Utf8(line, start) && start < |line|
    ensures var end := NextCut(line, start);
            AbsorbAll(lines, Continued(Chunks(line, start)))
            == AbsorbAll(Grow(lines, line[start..end]), Continued(Chunks(line, end)))
  {
    var end := NextCut(line, start);
    ContinuedHead(line, start);
    AbsorbCons(lines, " " + line[start..end], Continued(Chunks(line, end)));
    AbsorbChunk(lines, line[start..end]);
  }

  lemma AbsorbNoChunk(lines: seq<string>, line: string)
    requires lines != [] && Utf8(line, |line|)
    ensures AbsorbAll(lines, Continued(Chunks(line, |line|))) == Grow(lines, line[|line|..])
  {
    assert Chunks(line, |line|) == [] && Continued([]) == [];
    assert line[|line|..] == "";
    GrowNothing(lines);
  }

  lemma GrowInParts(lines: seq<string>, line: string, start: nat, end: nat)
    requires lines != [] && start <= end <= |line|
    ensures Grow(Grow(lines, line[start..end]), line[end..]) == Grow(lines, line[start..])
  {
    GrowTwice(lines, line[start..end], line[end..]);
    assert line[start..end] + line[end..] == line[start..];
  }

  lemma {:induction false} AbsorbContinued(lines: seq<string>, line: string, start: nat)
    requires lines != [] && Utf8(line, start)
    ensures AbsorbAll(lines, Continued(Chunks(line, start))) == Grow(lines, line[start..])
    decreases |line| - start
  {
    if start == |line| {
      AbsorbNoChunk(lines, line);
    } else {
      var end := NextCut(line, start);
      AbsorbNextChunk(lines, line, start);
      AbsorbContinued(Grow(lines, line[start..end]), line, end);
      GrowInParts(lines, line, start, end);
    }
  }

  lemma AbsorbParts(lines: seq<string>, first: string, rest: string)
    requires first != ""
    ensures Absorb(lines, first) != [] && Grow(Absorb(lines, first), rest) == Absorb(lines, first + rest)
  {
    if StartsBlank(first) && lines != [] {
      GrowTwice(lines, first[1..], rest);
      assert first[1..] + rest == (first + rest)[1..];
    } else {
      GrowNew(lines, first, rest);
    }
  }

  lemma PhysicalHead(line: string)
    requires Utf8(line) && line != ""
    ensures var end := NextCut(line, 0);
            Physical(line) == [line[..end]] + Continued(Chunks(line, end))
  {
    var end := NextCut(line, 0);
    assert line[0..end] == line[..end];
    assert ([line[..end]] + Chunks(line, end))[1..] == Chunks(line, end);
  }

  // Folding is transparent: the physical lines of a line are absorbed as the line itself would be.
  lemma AbsorbPhysical(lines: seq<string>, line: string)
    requires Utf8(line)
    ensures AbsorbAll(lines, Physical(line)) == Absorb(lines, line)
  {
    if line == "" {
      AbsorbCons(lines, "", []);
      assert [""] + [] == [""];
    } else {
      var end := NextCut(line, 0);
      var first, later := line[..end], Continued(Chunks(line, end));
      assert Absorb(lines, first) != [] && Absorb(lines, line) == Grow(Absorb(lines, first), line[end..]) by {
        AbsorbParts(lines, first, line[end..]);
        assert first + line[end..] == line;
      }
      assert AbsorbAll(Absorb(lines, first), later) == Absorb(lines, line) by {
        AbsorbContinued(Absorb(lines, first), line, end);
      }
      PhysicalHead(line);
      AbsorbCons(lines, first, later);
    }
  }

  lemma {:induction false} AbsorbFolded(lines: seq<string>, all: seq<string>)
    requires forall line <- all :: Utf8(line)
    ensures AbsorbAll(lines, AllPhysical(all)) == AbsorbAll(lines, all)
    decreases all
  {
    if all != [] {
      AbsorbInTurn(lines, Physical(all[0]), AllPhysical(all[1..]));
      AbsorbPhysical(lines, all[0]);
      AbsorbFolded(Absorb(lines, all[0]), all[1..]);
    }
  }

  function AllPhysical(lines: seq<string>): seq<string>
    requires forall line <- lines :: Utf8(line)
  {
    if lines == [] then [] else Physical(lines[0]) + AllPhysical(lines[1..])
  }

  lemma {:induction false} FoldAllTerminated(lines: seq<string>)
    requires forall line <- lines :: Utf8(line)
    ensures FoldAll(lines) == Terminated(AllPhysical(lines))
  {
    if lines != [] {
      TerminatedConcat(Physical(lines[0]), AllPhysical(lines[1..]));
      FoldAllTerminated(lines[1..]);
    }
  }

  lemma {:induction false} PhysicalNoNewline(line: string, start: nat)
    requires Utf8(line, start) && NoNewline(line)
    ensures forall chunk <- Chunks(line, start) :: NoNewline(chunk)
    decreases |line| - start
  {
    if start < |line| {
      PhysicalNoNewline(line, NextCut(line, start));
    }
  }

  lemma {:induction false} AllPhysicalNoNewline(lines: seq<string>)
    requires forall line <- lines :: Utf8(line) && NoNewline(line)
    ensures forall line <- AllPhysical(lines) :: NoNewline(line)
  {
    if lines != [] {
      AllPhysicalNoNewline(lines[1..]);
      if lines[0] != "" {
        PhysicalNoNewline(lines[0], 0);
        var chunks, physical := Chunks(lines[0], 0), Physical(lines[0]);
        forall k | 0 <= k < |physical| ensures NoNewline(physical[k]) {
          assert k > 0 ==> physical[k] == " " + chunks[k];
          assert NoNewline(chunks[k]);
        }
      }
    }
  }

  /** Reading back folded lines absorbs the lines themselves, whatever was cut. */
  lemma UnfoldFold(lines: seq<string>)
    requires forall line <- lines :: Utf8(line) && NoNewline(line)
    ensures Unfolded(FoldAll(lines)) == AbsorbAll([], lines)
  {
    var physical := AllPhysical(lines);
    FoldAllTerminated(lines);
    AllPhysicalNoNewline(lines);
    SplitTerminated(physical);
    AbsorbInTurn([], physical, [""]);
    AbsorbFolded([], lines);
    var r := AbsorbAll([], lines);
    assert [""][1..] == [];
    assert AbsorbAll(r, [""]) == r + [""];
    assert (r + [""])[..|r|] == r;
  }

  // Lines that do not start blank stay lines of their own; so does the very first one.
  lemma {:induction false} AbsorbPlain(lines: seq<string>, more: seq<string>)
    requires forall k :: 0 <= k < |more| ==> StartsBlank(more[k]) ==> k == 0 && lines == []
    ensures AbsorbAll(lines, more) == lines + more
    decreases more
  {
    if more != [] {
      AbsorbPlain(Absorb(lines, more[0]), more[1..]);
      assert lines + [more[0]] + more[1..] == lines + more;
    } else {
      assert lines + more == lines;
    }
  }

  // The others do not.
  lemma {:induction false} AbsorbCount(lines: seq<string>, more: seq<string>)
    ensures |AbsorbAll(lines, more)| <= |lines| + |more|
    ensures more != [] || lines != [] ==> AbsorbAll(lines, more) != []
    ensures (exists k :: 0 <= k < |more| && StartsBlank(more[k]) && (k > 0 || lines != []))
            ==> |AbsorbAll(lines, more)| < |lines| + |more|
    decreases more
  {
    if more != [] {
      var next := Absorb(lines, more[0]);
      AbsorbCount(next, more[1..]);
      if k :| 0 <= k < |more| && StartsBlank(more[k]) && (k > 0 || lines != []) {
        if k > 0 {
          assert more[1..][k - 1] == more[k];
        }
      }
    }
  }

  lemma {:induction false} AbsorbNoNewline(lines: seq<string>, more: seq<string>)
    requires forall line <- lines :: NoNewline(line)
    requires forall line <- more :: NoNewline(line)
    ensures forall line <- AbsorbAll(lines, more) :: NoNewline(line)
    decreases more
  {
    if more != [] {
      assert NoNewline(more[0]);
      var next := Absorb(lines, more[0]);
      forall k | 0 <= k < |next| ensures NoNewline(next[k]) {
        assert lines != [] ==> NoNewline(lines[|lines| - 1]);
        assert k < |lines| - 1 ==> next[k] == lines[k] && lines[k] in lines;
      }
      AbsorbNoNewline(next, more[1..]);
    }
  }

  lemma UnfoldNoNewline(input: string)
    ensures forall line <- Unfolded(input) :: NoNewline(line)
  {
    JoinSplit(input);
    var raws := SplitLines(input);
    forall k | 0 <= k < |raws| ensures NoNewline(StripCr(raws[k])) {
      assert raws[k] in raws;
    }
    AbsorbNoNewline([], Stripped(raws));
  }

  /** Exactly which lines survive folding and unfolding: no newline in any, and no leading blank in any but the first. */
  lemma FoldRoundTripIff(lines: seq<string>)
    requires forall line <- lines :: Utf8(line)
    ensures Unfolded(FoldAll(lines)) == lines
            <==> (forall line <- lines :: NoNewline(line)) && (forall k :: 0 < k < |lines| ==> !StartsBlank(lines[k]))
  {
    UnfoldNoNewline(FoldAll(lines));
    if forall line <- lines :: NoNewline(line) {
      UnfoldFold(lines);
      AbsorbCount([], lines);
      if forall k :: 0 < k < |lines| ==> !StartsBlank(lines[k]) {
        AbsorbPlain([], lines);
        assert [] + lines == lines;
      }
    }
  }

  // ---- Every physical line fits, and holds whole characters ----

  lemma {:induction false} ChunksFit(line: string, start: nat)
    requires Utf8(line, start)
    ensures forall k :: 0 <= k < |Chunks(line, start)| ==>
              && 0 < |Chunks(line, start)[k]| <= (if k == 0 then Budget(start) else LIMIT - 1)
              && Utf8(Chunks(line, start)[k])
    decreases |line| - start
  {
    if start < |line| {
      var end := NextCut(line, start);
      ChunksFit(line, end);
      SliceIsText(line, start, start, end);
    }
  }

  lemma {:induction false} SpaceBeforeText(chunk: string, i: nat)
    requires i <= |chunk| && Utf8(chunk, i)
    ensures Utf8(" " + chunk, i + 1)
    decreases |chunk| - i
  {
    if i < |chunk| {
      SpaceBeforeText(chunk, i + Width(chunk[i]));
    }
  }

  /** No physical line is longer than 75 octets, and none ends or begins inside a character. */
  lemma PhysicalLinesFit(line: string)
    requires Utf8(line)
    ensures forall physical <- Physical(line) :: |physical| <= 75 && Utf8(physical)
  {
    ChunksFit(line, 0);
    var chunks, lines := Chunks(line, 0), Physical(line);
    if line != "" {
      forall k | 0 <= k < |lines| ensures |lines[k]| <= LIMIT && Utf8(lines[k]) {
        if k > 0 {
          assert lines[k] == " " + chunks[k];
          SpaceBeforeText(chunks[k], 0);
        }
      }
    }
  }

  // ---- Escaping ----

  function EscapeChar(c: char): string {
    if c == '\\' then "\\\\"
    else if c == ',' then "\\,"
    else if c == ';' then "\\;"
    else if c == '\n' then "\\n"
    else if c == '\r' then ""
    else [c]
  }

  function Escape(s: string): string {
    if s == "" then "" else EscapeChar(s[0]) + Escape(s[1..])
  }

  function Unescape(s: string): string {
    if s == "" then ""
    else if s[0] != '\\' then [s[0]] + Unescape(s[1..])
    else if |s| == 1 then "\\"
    else [Unescaped(s[1])] + Unescape(s[2..])
  }

  function Unescaped(c: char): char {
    if c == 'n' || c == 'N' then '\n' else c
  }

  method EscapeText(s: string) returns (out: string)
    ensures out == Escape(s)
  {
    out := "";
    for k := 0 to |s|
      invariant out + Escape(s[k..]) == Escape(s)
    {
      Move(out, EscapeChar(s[k]), Escape(s[k + 1..]));
      assert s[k..][0] == s[k] && s[k..][1..] == s[k + 1..];
      out := out + EscapeChar(s[k]);
    }
    assert s[|s|..] == "";
  }

  lemma Move(a: string, b: string, c: string)
    ensures a + (b + c) == (a + b) + c
  {
  }

  lemma UnescapeStep(s: string, k: nat)
    requires k < |s|
    ensures Unescape(s[k..]) ==
            if s[k] != '\\' then [s[k]] + Unescape(s[k + 1..])
            else if k + 1 == |s| then "\\"
            else [Unescaped(s[k + 1])] + Unescape(s[k + 2..])
  {
    var rest := s[k..];
    assert rest[0] == s[k] && rest[1..] == s[k + 1..];
    if k + 1 < |s| {
      assert rest[1] == s[k + 1] && rest[2..] == s[k + 2..];
    }
  }

  method UnescapeText(s: string) returns (out: string)
    ensures out == Unescape(s)
  {
    out := "";
    var k := 0;
    while k < |s|
      invariant k <= |s| && out + Unescape(s[k..]) == Unescape(s)
    {
      UnescapeStep(s, k);
      if s[k] == '\\' {
        if k + 1 < |s| {
          Move(out, [Unescaped(s[k + 1])], Unescape(s[k + 2..]));
          out := out + [Unescaped(s[k + 1])];
          k := k + 2;
        } else {
          out := out + "\\";
          k := k + 1;
        }
      } else {
        Move(out, [s[k]], Unescape(s[k + 1..]));
        out := out + [s[k]];
        k := k + 1;
      }
    }
    assert s[|s|..] == "";
  }

  function WithoutCr(s: string): string {
    if s == "" then "" else (if s[0] == '\r' then "" else [s[0]]) + WithoutCr(s[1..])
  }

  lemma UnescapePair(c: char, rest: string)
    ensures Unescape(['\\', c] + rest) == [Unescaped(c)] + Unescape(rest)
  {
    assert (['\\', c] + rest)[2..] == rest;
  }

  lemma UnescapePlain(c: char, rest: string)
    requires c != '\\'
    ensures Unescape([c] + rest) == [c] + Unescape(rest)
  {
    assert ([c] + rest)[1..] == rest;
  }

  lemma UnescapeEscaped(c: char, rest: string)
    ensures Unescape(EscapeChar(c) + rest) == (if c == '\r' then "" else [c]) + Unescape(rest)
  {
    var e := EscapeChar(c);
    if |e| == 2 {
      assert e == ['\\', e[1]];
      UnescapePair(e[1], rest);
    } else if |e| == 1 {
      UnescapePlain(c, rest);
    } else {
      assert e + rest == rest && "" + Unescape(rest) == Unescape(rest);
    }
  }

  /** Escaping loses carriage returns and nothing else. */
  lemma {:induction false} UnescapeEscape(s: string)
    ensures Unescape(Escape(s)) == WithoutCr(s)
  {
    if s != "" {
      UnescapeEscape(s[1..]);
      UnescapeEscaped(s[0], Escape(s[1..]));
    }
  }

  lemma {:induction false} WithoutCrSame(s: string)
    ensures WithoutCr(s) == s <==> '\r' !in s
    ensures |WithoutCr(s)| <= |s|
    ensures '\r' !in WithoutCr(s)
  {
    if s != "" {
      WithoutCrSame(s[1..]);
      assert s == [s[0]] + s[1..];
      if s[0] != '\r' {
        assert WithoutCr(s)[1..] == WithoutCr(s[1..]);
      }
    }
  }

  /** Exactly the texts without a carriage return survive escaping. */
  lemma EscapeRoundTripIff(s: string)
    ensures Unescape(Escape(s)) == s <==> '\r' !in s
  {
    UnescapeEscape(s);
    WithoutCrSame(s);
  }

  lemma {:induction false} EscapeConcat(a: string, b: string)
    ensures Escape(a + b) == Escape(a) + Escape(b)
  {
    if a == "" {
      assert a + b == b;
    } else {
      EscapeConcat(a[1..], b);
      assert (a + b)[1..] == a[1..] + b;
      Move(EscapeChar(a[0]), Escape(a[1..]), Escape(b));
    }
  }

  /** Escaping character by character: a backslash before '\\', ',' and ';', "\\n" for a newline, nothing for a carriage return. */
  lemma EscapeMeaning(before: string, c: char, after: string)
    ensures Escape("") == ""
    ensures c in {'\\', ',', ';'} ==> Escape(before + [c] + after) == Escape(before) + ['\\', c] + Escape(after)
    ensures c == '\n' ==> Escape(before + [c] + after) == Escape(before) + ['\\', 'n'] + Escape(after)
    ensures c == '\r' ==> Escape(before + [c] + after) == Escape(before) + Escape(after)
    ensures c !in {'\\', ',', ';', '\n', '\r'} ==> Escape(before + [c] + after) == Escape(before) + [c] + Escape(after)
  {
    EscapeConcat(before + [c], after);
    EscapeConcat(before, [c]);
    assert [c][1..] == "" && EscapeChar(c) + "" == EscapeChar(c);
    assert Escape(before) + "" == Escape(before);
  }

  /** Reading: a backslash before n or N is a newline, before any other character that character, and alone at the end itself. */
  lemma UnescapeMeaning(c: char, rest: string)
    ensures Unescape("") == "" && Unescape(['\\']) == ['\\']
    ensures c != '\\' ==> Unescape([c] + rest) == [c] + Unescape(rest)
    ensures c in {'n', 'N'} ==> Unescape(['\\', c] + rest) == ['\n'] + Unescape(rest)
    ensures c !in {'n', 'N'} ==> Unescape(['\\', c] + rest) == [c] + Unescape(rest)
  {
    UnescapePair(c, rest);
    if c != '\\' {
      UnescapePlain(c, rest);
    }
  }

  // ---- What the folded text looks like ----

  // The piece that follows would not have fit: its first character takes the line past 75 octets.
  predicate Full(line: string, next: string) {
    1 < |next| && |line| + Width(next[1]) > 75
  }

  lemma NextCharacter(line: string, i: nat)
    requires i < |line| && Utf8(line, i)
    ensures var next := i + Width(line[i]); i < next <= |line| && (next < |line| ==> !Continuation(line[next]))
  {
    assert Utf8(line, i + Width(line[i]));
  }

  lemma CutIsFull(line: string, start: nat)
    requires start < |line| && Utf8(line, start) && NextCut(line, start) < |line|
    ensures NextCut(line, start) - start + Width(line[NextCut(line, start)]) > Budget(start)
  {
    NextCharacter(line, NextCut(line, start));
  }

  lemma {:induction false} ChunksFull(line: string, start: nat, k: nat)
    requires Utf8(line, start) && k + 1 < |Chunks(line, start)|
    ensures var chunks := Chunks(line, start);
            chunks[k + 1] != "" && |chunks[k]| + Width(chunks[k + 1][0]) > if k == 0 then Budget(start) else 74
    decreases |line| - start
  {
    var end := NextCut(line, start);
    if k == 0 {
      CutIsFull(line, start);
    } else {
      ChunksFull(line, end, k - 1);
    }
  }

  lemma {:induction false} ChunksJoin(line: string, start: nat)
    requires Utf8(line, start)
    ensures Joined(Chunks(line, start)) == line[start..]
    decreases |line| - start
  {
    if start < |line| {
      ChunksJoin(line, NextCut(line, start));
    }
  }

  function Joined(pieces: seq<string>): string {
    if pieces == [] then "" else pieces[0] + Joined(pieces[1..])
  }

  // The pieces in order, a space before each but the first.
  predicate Spaced(lines: seq<string>, pieces: seq<string>) {
    |lines| == |pieces| && forall k :: 0 <= k < |pieces| ==> lines[k] == if k == 0 then pieces[k] else " " + pieces[k]
  }

  predicate AllFull(lines: seq<string>) {
    forall k :: 0 <= k < |lines| - 1 ==> Full(lines[k], lines[k + 1])
  }

  lemma PrefixedSpaced(chunks: seq<string>)
    ensures Spaced(Prefixed(chunks), chunks)
  {
    if chunks != [] {
      forall k | 0 < k < |chunks| ensures Prefixed(chunks)[k] == " " + chunks[k] {
        assert Continued(chunks[1..])[k - 1] == " " + chunks[1..][k - 1];
      }
    }
  }

  lemma SpacedFull(lines: seq<string>, pieces: seq<string>, k: nat)
    requires Spaced(lines, pieces) && k + 1 < |pieces|
    requires pieces[k + 1] != "" && |pieces[k]| + Width(pieces[k + 1][0]) > if k == 0 then 75 else 74
    ensures Full(lines[k], lines[k + 1])
  {
    assert lines[k + 1][1] == pieces[k + 1][0];
  }

  lemma PhysicalFull(line: string)
    requires Utf8(line) && line != ""
    ensures Spaced(Physical(line), Chunks(line, 0)) && AllFull(Physical(line))
  {
    var chunks, lines := Chunks(line, 0), Physical(line);
    PrefixedSpaced(chunks);
    forall k | 0 <= k < |lines| - 1 ensures Full(lines[k], lines[k + 1]) {
      ChunksFull(line, 0, k);
      SpacedFull(lines, chunks, k);
    }
  }

  /**
   The physical lines of a logical one: its pieces in order, a space before each but the first, and every one but the
   last filled up to 75 octets as far as whole characters allow.
   */
  lemma PhysicalForm(line: string) returns (pieces: seq<string>)
    requires Utf8(line)
    ensures pieces != [] && Joined(pieces) == line
    ensures Spaced(Physical(line), pieces) && AllFull(Physical(line))
  {
    if line == "" {
      pieces := [""];
    } else {
      pieces := Chunks(line, 0);
      ChunksJoin(line, 0);
      assert line[0..] == line;
      PhysicalFull(line);
    }
  }

  /** A line of up to 75 octets is not cut. */
  lemma ShortLineUncut(line: string)
    requires Utf8(line) && |line| <= 75
    ensures Folded(line) == line + "\r\n"
  {
    FoldShort(line);
  }

  function Ended(lines: seq<string>): seq<string> {
    seq(|lines|, k requires 0 <= k < |lines| => lines[k] + "\r")
  }

  /** The text is those physical lines, each ended by carriage return and newline, and nothing behind the last. */
  lemma {:induction false} FoldedForm(lines: seq<string>)
    requires forall line <- lines :: Utf8(line) && NoNewline(line)
    ensures SplitLines(FoldAll(lines)) == Ended(AllPhysical(lines)) + [""]
  {
    FoldAllTerminated(lines);
    AllPhysicalNoNewline(lines);
    TerminatedForm(AllPhysical(lines));
  }

  lemma {:induction false} TerminatedForm(lines: seq<string>)
    requires forall line <- lines :: NoNewline(line)
    ensures SplitLines(Terminated(lines)) == Ended(lines) + [""]
  {
    if lines == [] {
      assert SplitLines("") == [""];
    } else {
      var rest := Terminated(lines[1..]);
      assert NoNewline(lines[0]);
      assert lines[0] + "\r\n" + rest == (lines[0] + "\r") + "\n" + rest;
      SplitAtNewline(lines[0] + "\r", rest);
      TerminatedForm(lines[1..]);
      assert Ended(lines) == [lines[0] + "\r"] + Ended(lines[1..]);
    }
  }

  // ---- What unfolding makes of any text ----

  lemma UnfoldTerminated(lines: seq<string>)
    requires forall line <- lines :: NoNewline(line)
    ensures Unfolded(Terminated(lines)) == AbsorbAll([], lines)
  {
    SplitTerminated(lines);
    AbsorbInTurn([], lines, [""]);
    var r := AbsorbAll([], lines);
    assert [""][1..] == [];
    assert AbsorbAll(r, [""]) == r + [""];
    assert (r + [""])[..|r|] == r;
  }

  /** One more line of a text: one that starts with a space or a tab is appended, without it, to the logical line before it; any other, and the very first, is a line of its own. */
  lemma UnfoldOneMore(lines: seq<string>, line: string)
    requires NoNewline(line) && forall l <- lines :: NoNewline(l)
    ensures var before, after := Unfolded(Terminated(lines)), Unfolded(Terminated(lines + [line]));
            && (lines == [] <==> before == [])
            && if lines != [] && line != "" && (line[0] == ' ' || line[0] == '\t')
               then |after| == |before| && after[..|before| - 1] == before[..|before| - 1] && after[|before| - 1] == before[|before| - 1] + line[1..]
               else after == before + [line]
  {
    UnfoldTerminated(lines);
    UnfoldTerminated(lines + [line]);
    AbsorbInTurn([], lines, [line]);
    AbsorbCount([], lines);
    assert [line][1..] == [];
  }

  lemma {:induction false} SplitUnended(lines: seq<string>, tail: string)
    requires NoNewline(tail) && forall line <- lines :: NoNewline(line)
    ensures Stripped(SplitLines(Terminated(lines) + tail)) == lines + [StripCr(tail)]
  {
    if lines == [] {
      SplitPlain(tail);
      assert Terminated(lines) + tail == tail;
      StrippedCons(tail, []);
    } else {
      var rest := Terminated(lines[1..]);
      assert NoNewline(lines[0]);
      assert lines[0] + "\r\n" + rest + tail == lines[0] + "\r\n" + (rest + tail);
      OneTerminated(lines[0], rest + tail);
      SplitUnended(lines[1..], tail);
      assert [lines[0]] + (lines[1..] + [StripCr(tail)]) == lines + [StripCr(tail)];
    }
  }

  /** A last line without a line end is read all the same. */
  lemma UnfoldUnended(lines: seq<string>, line: string)
    requires NoNewline(line) && forall l <- lines :: NoNewline(l)
    requires line != "" && line[0] != ' ' && line[0] != '\t' && line[|line| - 1] != '\r'
    ensures Unfolded(Terminated(lines) + line) == Unfolded(Terminated(lines)) + [line]
  {
    UnfoldTerminated(lines);
    SplitUnended(lines, line);
    AbsorbInTurn([], lines, [line]);
    var r := AbsorbAll([], lines);
    assert [line][1..] == [];
    assert AbsorbAll(r, [line]) == r + [line];
    assert (r + [line])[|r|] == line;
  }

  lemma {:induction false} SplitJoin(raws: seq<string>)
    requires raws != [] && forall k :: 0 <= k < |raws| ==> NoNewline(raws[k])
    ensures SplitLines(JoinLines(raws)) == raws
  {
    var first, rest := raws[0], raws[1..];
    if rest == [] {
      SplitPlain(first);
    } else {
      SplitJoin(rest);
      SplitAtNewline(first, JoinLines(rest));
    }
    assert raws == [first] + rest;
  }

  lemma StripOneCr(a: string, b: string)
    requires a == b || (a == b + "\r" && (b == "" || b[|b| - 1] != '\r'))
    ensures StripCr(a) == StripCr(b)
  {
  }

  /** A newline alone ends a line as a carriage return and a newline do. */
  lemma UnfoldLineEnds(a: seq<string>, b: seq<string>)
    requires a != [] && |a| == |b| && forall k :: 0 <= k < |a| ==> NoNewline(a[k]) && NoNewline(b[k])
    requires forall k :: 0 <= k < |a| ==> a[k] == b[k] || (a[k] == b[k] + "\r" && (b[k] == "" || b[k][|b[k]| - 1] != '\r'))
    ensures Unfolded(JoinLines(a)) == Unfolded(JoinLines(b))
  {
    SplitJoin(a);
    SplitJoin(b);
    forall k | 0 <= k < |a| ensures StripCr(a[k]) == StripCr(b[k]) {
      StripOneCr(a[k], b[k]);
    }
    assert Stripped(a) == Stripped(b);
  }
}
