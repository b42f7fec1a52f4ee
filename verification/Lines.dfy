/** Line splitting and joining as `std.fs.edit` does it. */
module Lines {
  import opened Wrappers

  predicate OneLine(s: string) {
    '\n' !in s
  }

  predicate AllOneLine(lines: seq<string>) {
    forall i :: 0 <= i < |lines| ==> OneLine(lines[i])
  }

  /** `s.split('\n')`: the pieces between newlines, never none. */
  function Split(s: string): (pieces: seq<string>)
    ensures |pieces| >= 1
  {
    if s == "" then [""]
    else if s[0] == '\n' then [""] + Split(s[1..])
    else
      var rest := Split(s[1..]);
      [[s[0]] + rest[0]] + rest[1..]
  }

  /** `lines.join("\n")`; joining nothing gives the empty string. */
  function Join(lines: seq<string>): string {
    if lines == [] then ""
    else if |lines| == 1 then lines[0]
    else lines[0] + "\n" + Join(lines[1..])
  }

  datatype Split2 = Split2(lines: seq<string>, trailing: bool)

  /** The lines of a file, and whether it ended with a newline. */
  function SplitLines(content: string): (r: Split2)
    ensures |r.lines| >= 1
  {
    var trailing := content != "" && content[|content| - 1] == '\n';
    var body := if trailing then content[..|content| - 1] else content;
    if body == "" && trailing then Split2([""], true)
    else Split2(Split(body), trailing)
  }

  function JoinLines(lines: seq<string>, trailing: bool): string {
    Join(lines) + (if trailing then "\n" else "")
  }

  lemma {:induction false} SplitPieces(s: string)
    ensures AllOneLine(Split(s))
  {
    if s != "" { SplitPieces(s[1..]); }
  }

  lemma SplitLinesPieces(content: string)
    ensures AllOneLine(SplitLines(content).lines)
  {
    var trailing := content != "" && content[|content| - 1] == '\n';
    SplitPieces(if trailing then content[..|content| - 1] else content);
  }

  lemma {:induction false} JoinSplit(s: string)
    ensures Join(Split(s)) == s
  {
    if s != "" {
      JoinSplit(s[1..]);
      var rest := Split(s[1..]);
      if s[0] == '\n' {
        assert ([""] + rest)[1..] == rest;
        assert s == "" + "\n" + s[1..];
      } else {
        var all := [[s[0]] + rest[0]] + rest[1..];
        assert all[1..] == rest[1..];
        assert s == [s[0]] + s[1..];
      }
    }
  }

  lemma LengthenFirst<T>(x: T, p: seq<seq<T>>, q: seq<seq<T>>)
    requires p != []
    ensures [[x] + (p + q)[0]] + (p + q)[1..] == ([[x] + p[0]] + p[1..]) + q
  {
  }

  /** A newline anywhere separates the pieces before it from those after it. */
  lemma {:induction false} SplitAtNewline(a: string, b: string)
    ensures Split(a + "\n" + b) == Split(a) + Split(b)
    decreases |a|
  {
    var t := a + "\n" + b;
    if a == "" {
      assert t[1..] == b;
    } else {
      SplitAtNewline(a[1..], b);
      assert t[1..] == a[1..] + "\n" + b;
      if a[0] == '\n' {
        AppendAssociates([""], Split(a[1..]), Split(b));
      } else {
        LengthenFirst(a[0], Split(a[1..]), Split(b));
      }
    }
  }

  lemma {:induction false} SplitOneLine(s: string)
    requires OneLine(s)
    ensures Split(s) == [s]
  {
    if s != "" {
      SplitOneLine(s[1..]);
      assert [s[0]] + s[1..] == s;
    }
  }

  lemma {:induction false} SplitJoin(lines: seq<string>)
    requires lines != [] && AllOneLine(lines)
    ensures Split(Join(lines)) == lines
  {
    SplitOneLine(lines[0]);
    if |lines| > 1 {
      SplitJoin(lines[1..]);
      SplitAtNewline(lines[0], Join(lines[1..]));
    }
  }

  /** No file is changed by being taken apart and put together. */
  lemma JoinSplitLines(content: string)
    ensures JoinLines(SplitLines(content).lines, SplitLines(content).trailing) == content
  {
    if content != "" && content[|content| - 1] == '\n' {
      JoinSplit(content[..|content| - 1]);
      assert content == content[..|content| - 1] + "\n";
    } else {
      JoinSplit(content);
      assert content + "" == content;
    }
  }

  /** What a joined text ends with decides how it splits again. */
  lemma {:induction false} JoinEnds(lines: seq<string>)
    requires lines != [] && AllOneLine(lines)
    ensures (Join(lines) != "" && Join(lines)[|Join(lines)| - 1] == '\n')
            <==> (|lines| > 1 && lines[|lines| - 1] == "")
    ensures |lines| > 1 && lines[|lines| - 1] == "" ==> Join(lines) == Join(lines[..|lines| - 1]) + "\n"
  {
    if |lines| > 1 {
      JoinEnds(lines[1..]);
      assert lines[1..][|lines| - 2] == lines[|lines| - 1];
      if lines[|lines| - 1] == "" {
        var init := lines[..|lines| - 1];
        if |lines| > 2 {
          assert lines[1..][..|lines| - 2] == init[1..];
        }
      }
    }
  }

  /** Whether a list of lines, written out, reads back as the same list. */
  predicate ReadsBack(lines: seq<string>, trailing: bool) {
    lines != [] && (trailing || |lines| == 1 || lines[|lines| - 1] != "")
  }

  /** What the next read of written-out lines sees, in every case. */
  lemma SplitJoinLines(lines: seq<string>, trailing: bool)
    requires AllOneLine(lines)
    ensures SplitLines(JoinLines(lines, trailing)) ==
            if lines == [] then Split2([""], trailing)
            else if ReadsBack(lines, trailing) then Split2(lines, trailing)
            else Split2(lines[..|lines| - 1], true)
    ensures SplitLines(JoinLines(lines, trailing)) == Split2(lines, trailing) <==> ReadsBack(lines, trailing)
  {
    var text := JoinLines(lines, trailing);
    if lines == [] {
    } else if trailing {
      assert text[..|text| - 1] == Join(lines);
      SplitJoin(lines);
    } else {
      assert text == Join(lines);
      JoinEnds(lines);
      SplitJoin(lines);
      if !ReadsBack(lines, trailing) {
        var init := lines[..|lines| - 1];
        assert text[..|text| - 1] == Join(init);
        SplitJoin(init);
      }
    }
  }
}
