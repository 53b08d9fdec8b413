/** Splitting text at newlines, and joining it again. */
module TextLines {
  function SplitLines(body: string): (lines: seq<string>)
    ensures lines != []
  {
    if body == "" then [""]
    else
      var rest := SplitLines(body[1..]);
      if body[0] == '\n' then [""] + rest else [[body[0]] + rest[0]] + rest[1..]
  }

  function JoinLines(lines: seq<string>): string {
    if lines == [] then "" else if |lines| == 1 then lines[0] else lines[0] + "\n" + JoinLines(lines[1..])
  }

  lemma {:induction false} JoinSplit(body: string)
    ensures JoinLines(SplitLines(body)) == body
    ensures forall line <- SplitLines(body) :: '\n' !in line
  {
    if body != "" {
      JoinSplit(body[1..]);
      var rest := SplitLines(body[1..]);
      if body[0] == '\n' {
        assert ([""] + rest)[1..] == rest;
      } else {
        var lines := [[body[0]] + rest[0]] + rest[1..];
        assert lines[1..] == rest[1..];
        assert rest[0] in rest;
      }
      assert body == [body[0]] + body[1..];
    }
  }

  lemma {:induction false} SplitPlain(line: string)
    requires '\n' !in line
    ensures SplitLines(line) == [line]
  {
    if line != "" {
      assert line == [line[0]] + line[1..];
      SplitPlain(line[1..]);
    }
  }

  lemma {:induction false} SplitAtNewline(line: string, rest: string)
    requires '\n' !in line
    ensures SplitLines(line + "\n" + rest) == [line] + SplitLines(rest)
  {
    if line == "" {
      assert line + "\n" + rest == "\n" + rest;
      assert ("\n" + rest)[1..] == rest;
    } else {
      SplitAtNewline(line[1..], rest);
      assert (line + "\n" + rest)[1..] == line[1..] + "\n" + rest;
      assert line == [line[0]] + line[1..];
    }
  }
}
