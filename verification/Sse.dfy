/** Delivering values one by one to a listener that may stop the delivery. */
module Delivery {

  /** How a delivery stands; `Going` while nothing has stopped it. */
  datatype Outcome = Going | StoppedAtDone | CallbackRaised

  /**
    Who listens: whether there is a callback at all, which of its calls
    (counted from 0) raises, and which value is the terminating sentinel.
  */
  datatype Listener<!P> = Listener(callback: bool, raises: nat -> bool, done: P -> bool)

  datatype Reading<P> = Reading(calls: seq<P>, outcome: Outcome)

  /** `data` delivered in order after the calls already made. */
  function Feed<P>(to: Listener<P>, calls: seq<P>, data: seq<P>): Reading<P>
    decreases |data|
  {
    if data == [] then Reading(calls, Going)
    else if to.done(data[0]) then Reading(calls, StoppedAtDone)
    else if !to.callback then Feed(to, calls, data[1..])
    else if to.raises(|calls|) then Reading(calls + [data[0]], CallbackRaised)
    else Feed(to, calls + [data[0]], data[1..])
  }

  /** Delivering two batches is delivering them as one. */
  lemma {:induction false} FeedAppend<P>(to: Listener<P>, calls: seq<P>, a: seq<P>, b: seq<P>)
    ensures var r := Feed(to, calls, a);
            Feed(to, calls, a + b) == if r.outcome == Going then Feed(to, r.calls, b) else r
    decreases |a|
  {
    if a == [] {
      assert a + b == b;
    } else {
      assert (a + b)[1..] == a[1..] + b;
      if to.callback {
        FeedAppend(to, calls + [a[0]], a[1..], b);
      } else {
        FeedAppend(to, calls, a[1..], b);
      }
    }
  }

  /**
    With a callback the calls are the values in order, up to and excluding
    the first sentinel, or up to and including the first that raises.
  */
  lemma {:induction false} FeedMeaning<P>(to: Listener<P>, made: seq<P>, data: seq<P>)
    requires to.callback
    ensures var r := Feed(to, made, data);
            && made <= r.calls && r.calls[|made|..] <= data
            && (forall k :: |made| <= k < |r.calls| ==> !to.done(r.calls[k]))
            && (forall k :: |made| <= k < |r.calls| - 1 ==> !to.raises(k))
            && match r.outcome
               case Going => r.calls == made + data && (r.calls != made ==> !to.raises(|r.calls| - 1))
               case StoppedAtDone =>
                 && |r.calls| - |made| < |data| && to.done(data[|r.calls| - |made|])
                 && (r.calls != made ==> !to.raises(|r.calls| - 1))
               case CallbackRaised => r.calls != made && to.raises(|r.calls| - 1)
    decreases |data|
  {
    if data != [] && !to.done(data[0]) && !to.raises(|made|) {
      FeedMeaning(to, made + [data[0]], data[1..]);
      var r := Feed(to, made, data);
      assert r.calls[|made|] == data[0];
      assert r.calls[|made|..] == [data[0]] + r.calls[|made| + 1..];
    }
  }

  /** With no callback nothing is called, and only a sentinel stops the delivery. */
  lemma {:induction false} FeedSilent<P>(to: Listener<P>, made: seq<P>, data: seq<P>)
    requires !to.callback
    ensures Feed(to, made, data).calls == made
    ensures Feed(to, made, data).outcome == if exists i :: 0 <= i < |data| && to.done(data[i]) then StoppedAtDone else Going
    decreases |data|
  {
    if data != [] && !to.done(data[0]) {
      FeedSilent(to, made, data[1..]);
      if exists i :: 0 <= i < |data| && to.done(data[i]) {
        var i :| 0 <= i < |data| && to.done(data[i]);
        assert data[1..][i - 1] == data[i];
      }
    }
  }
}

/** Cutting a growing text leftmost at blank lines. */
module BlankLineCut {
  import opened Wrappers

  predicate BlankAt(s: string, i: nat) {
    i + 1 < |s| && s[i] == '\n' && s[i + 1] == '\n'
  }

  /** `s.find("\n\n")`, from position `i` on. */
  function FindBlank(s: string, i: nat := 0): (r: Option<nat>)
    ensures r.Some? ==> i <= r.value && BlankAt(s, r.value)
    ensures forall k :: i <= k && (r.Some? ==> k < r.value) ==> !BlankAt(s, k)
    decreases |s| - i
  {
    if i + 1 >= |s| then None
    else if BlankAt(s, i) then Some(i)
    else FindBlank(s, i + 1)
  }

  /** What the blocks of a text carry, in order, the unfinished tail dropped. */
  function Carried<P>(of: string -> seq<P>, s: string): seq<P>
    decreases |s|
  {
    match FindBlank(s)
    case None => []
    case Some(pos) => of(s[..pos]) + Carried(of, s[pos + 2..])
  }

  /** The unfinished tail. */
  function Rest(s: string): (r: string)
    ensures FindBlank(r).None?
    decreases |s|
  {
    match FindBlank(s)
    case None => s
    case Some(pos) => Rest(s[pos + 2..])
  }

  /** A blank line that has arrived stays the leftmost one. */
  lemma FindBlankGrows(s: string, t: string)
    requires FindBlank(s).Some?
    ensures FindBlank(s + t) == FindBlank(s)
  {
    var p := FindBlank(s).value;
    assert BlankAt(s + t, p);
    forall k: nat | k < p ensures !BlankAt(s + t, k) {
      assert !BlankAt(s, k);
    }
  }

  /** Cutting what has arrived and going on with its tail is cutting the whole. */
  lemma {:induction false} CutAnywhere<P>(of: string -> seq<P>, s: string, t: string)
    ensures Carried(of, s + t) == Carried(of, s) + Carried(of, Rest(s) + t)
    ensures Rest(s + t) == Rest(Rest(s) + t)
    decreases |s|
  {
    if FindBlank(s).Some? {
      var p := FindBlank(s).value;
      FindBlankGrows(s, t);
      CutAnywhere(of, s[p + 2..], t);
      assert (s + t)[..p] == s[..p];
      assert (s + t)[p + 2..] == s[p + 2..] + t;
      AppendAssociates(of(s[..p]), Carried(of, s[p + 2..]), Carried(of, Rest(s) + t));
    }
  }
}

/**
  The incremental server-sent-events reader behind `http.request`'s
  streaming mode: a buffer grown by chunks and cut at the leftmost blank
  line. Chunks are text, as they are after decoding.
*/
module Sse {
  import opened Wrappers
  import opened BlankLineCut
  import opened Delivery
  import Lines

  // ----- text helpers of the standard library -----

  /** `str::trim` removes the characters Unicode calls White_Space. */
  predicate IsWhitespace(c: char) {
    var n := c as int;
    || 0x9 <= n <= 0xD || n == 0x20 || n == 0x85 || n == 0xA0 || n == 0x1680
    || 0x2000 <= n <= 0x200A || n == 0x2028 || n == 0x2029 || n == 0x202F || n == 0x205F || n == 0x3000
  }

  function TrimStart(s: string): string {
    if s != "" && IsWhitespace(s[0]) then TrimStart(s[1..]) else s
  }

  function TrimEnd(s: string): string {
    if s != "" && IsWhitespace(s[|s| - 1]) then TrimEnd(s[..|s| - 1]) else s
  }

  function Trim(s: string): string {
    TrimEnd(TrimStart(s))
  }

  function StripCr(s: string): string {
    if s != "" && s[|s| - 1] == '\r' then s[..|s| - 1] else s
  }

  /** All pieces but the last end in a newline and lose a carriage return before it. */
  function StripTerminated(pieces: seq<string>): seq<string> {
    if pieces == [] then []
    else if |pieces| == 1 then (if pieces[0] == "" then [] else pieces)
    else [StripCr(pieces[0])] + StripTerminated(pieces[1..])
  }

  /** `str::lines`. */
  function TextLines(s: string): seq<string> {
    StripTerminated(Lines.Split(s))
  }

  // ----- one event block -----

  const DONE := "[DONE]"

  /** The value of a `data:` line, trimmed; other lines have none. */
  function DataOf(line: string): Option<string> {
    if "data: " <= line then Some(Trim(line[6..]))
    else if "data:" <= line then Some(Trim(line[5..]))
    else None
  }

  function BlockData(block: string): seq<string> {
    FilterMap(DataOf, TextLines(block))
  }

  // ----- the whole text: the reference -----

  /** How the stream itself ends, if nothing stops the reader first. */
  datatype End = Eof | ReadError

  /** Everything a reader does: its callbacks in order, and how it returns. */
  datatype Result = Result(calls: seq<string>, outcome: Outcome, failed: bool)

  function Listening(callback: bool, raises: nat -> bool): Listener<string> {
    Listener(callback, raises, d => d == DONE)
  }

  /** The result of reading a whole text in one go; a read error counts only if nothing stopped the reader. */
  function ReadText(text: string, to: Listener<string>, end: End): Result {
    var r := Feed(to, [], Carried(BlockData, text));
    Result(r.calls, r.outcome, r.outcome == Going && end == ReadError)
  }

  // ----- the reader -----

  /** One block's lines, in order. */
  method ReadBlock(block: string, to: Listener<string>, made: seq<string>) returns (r: Reading<string>)
    requires forall d :: to.done(d) <==> d == DONE
    ensures r == Feed(to, made, BlockData(block))
  {
    var calls := made;
    var lines := TextLines(block);
    for i := 0 to |lines|
      invariant Feed(to, made, BlockData(block)) == Feed(to, calls, FilterMap(DataOf, lines[i..]))
    {
      assert lines[i..][1..] == lines[i + 1..];
      ghost var tail := FilterMap(DataOf, lines[i + 1..]);
      var data := DataOf(lines[i]);
      if data.Some? {
        assert ([data.value] + tail)[1..] == tail;
        if data.value == DONE {
          return Reading(calls, StoppedAtDone);
        }
        if to.callback {
          calls := calls + [data.value];
          if to.raises(|calls| - 1) {
            return Reading(calls, CallbackRaised);
          }
        }
      } else {
        assert [] + tail == tail;
      }
    }
    assert lines[|lines|..] == [];
    return Reading(calls, Going);
  }

  /** The inner loop: cut and read every complete block in the buffer. */
  method Drain(arrived: string, to: Listener<string>, made: seq<string>) returns (buffer: string, r: Reading<string>)
    requires forall d :: to.done(d) <==> d == DONE
    ensures r == Feed(to, made, Carried(BlockData, arrived))
    ensures r.outcome == Going ==> buffer == Rest(arrived)
  {
    buffer, r := arrived, Reading(made, Going);
    while FindBlank(buffer).Some?
      invariant r.outcome == Going
      invariant Rest(buffer) == Rest(arrived)
      invariant Feed(to, made, Carried(BlockData, arrived)) == Feed(to, r.calls, Carried(BlockData, buffer))
      decreases |buffer|
    {
      var pos := FindBlank(buffer).value;
      var block := buffer[..pos];
      FeedAppend(to, r.calls, BlockData(block), Carried(BlockData, buffer[pos + 2..]));
      buffer := buffer[pos + 2..];
      r := ReadBlock(block, to, r.calls);
      if r.outcome != Going {
        return;
      }
    }
  }

  /**
    Reads chunks until they run out or the stream fails (`end`), a callback
    raises, or the sentinel arrives. The callbacks and the outcome are those
    of the whole text read in one go, so they do not depend on the chunking.
  */
  method ReadSse(chunks: seq<string>, callback: bool, raises: nat -> bool, end: End) returns (result: Result)
    ensures result == ReadText(Flatten(chunks), Listening(callback, raises), end)
  {
    var to := Listening(callback, raises);
    var buffer, r := "", Reading([], Going);
    ghost var text := "";
    for i := 0 to |chunks|
      invariant text == Flatten(chunks[..i])
      invariant buffer == Rest(text)
      invariant r.outcome == Going && r == Feed(to, [], Carried(BlockData, text))
    {
      FlattenNext(chunks, i);
      CutAnywhere(BlockData, text, chunks[i]);
      FeedAppend(to, [], Carried(BlockData, text), Carried(BlockData, buffer + chunks[i]));
      text := text + chunks[i];
      buffer := buffer + chunks[i];
      buffer, r := Drain(buffer, to, r.calls);
      if r.outcome != Going {
        FlattenRest(chunks, i + 1);
        StopIsFinal(text, Flatten(chunks[i + 1..]), to, end);
        return Result(r.calls, r.outcome, false);
      }
    }
    assert chunks[..|chunks|] == chunks;
    return Result(r.calls, Going, end == ReadError);
  }

  /** Once the reader has stopped, what would have arrived later makes no difference. */
  lemma {:induction false} StopIsFinal(text: string, later: string, to: Listener<string>, end: End)
    requires Feed(to, [], Carried(BlockData, text)).outcome != Going
    ensures ReadText(text + later, to, end) == ReadText(text, to, Eof)
  {
    CutAnywhere(BlockData, text, later);
    FeedAppend(to, [], Carried(BlockData, text), Carried(BlockData, Rest(text) + later));
  }

  // ----- the reference without blocks -----

  lemma {:induction false} TrimStartCr(s: string)
    ensures Trim(s + "\r") == Trim(s)
  {
    var t := s + "\r";
    if s == "" {
      assert t[1..] == "" && TrimStart(t) == TrimStart(t[1..]);
    } else if IsWhitespace(s[0]) {
      TrimStartCr(s[1..]);
      assert t[1..] == s[1..] + "\r";
    } else {
      assert t[..|t| - 1] == s;
    }
  }

  lemma PrefixBeforeCr(p: string, s: string)
    requires p != "" && p[|p| - 1] != '\r'
    ensures p <= s + "\r" <==> p <= s
    ensures p <= s ==> Trim((s + "\r")[|p|..]) == Trim(s[|p|..])
  {
    var t := s + "\r";
    if p <= t {
      assert p[|p| - 1] == t[|p| - 1];
      assert p == t[..|p|] == s[..|p|];
    }
    if p <= s {
      assert t[..|p|] == s[..|p|];
      assert t[|p|..] == s[|p|..] + "\r";
      TrimStartCr(s[|p|..]);
    }
  }

  /** A carriage return before the newline never shows in a value. */
  lemma DataIgnoresCr(line: string)
    ensures DataOf(StripCr(line)) == DataOf(line)
  {
    if line != "" && line[|line| - 1] == '\r' {
      var s := line[..|line| - 1];
      assert line == s + "\r";
      PrefixBeforeCr("data: ", s);
      PrefixBeforeCr("data:", s);
    }
  }

  lemma {:induction false} DataOfTerminated(pieces: seq<string>)
    ensures FilterMap(DataOf, StripTerminated(pieces)) == FilterMap(DataOf, pieces)
  {
    if |pieces| > 1 {
      DataIgnoresCr(pieces[0]);
      DataOfTerminated(pieces[1..]);
    }
  }

  /** A block's values are those of its plain pieces. */
  lemma {:induction false} BlockDataPlain(block: string)
    ensures BlockData(block) == FilterMap(DataOf, Lines.Split(block))
  {
    DataOfTerminated(Lines.Split(block));
  }

  lemma SkipFirst<A, P>(of: A -> Option<P>, x: A, xs: seq<A>)
    requires of(x) == None
    ensures FilterMap(of, [x] + xs) == FilterMap(of, xs)
  {
  }

  /** A block, the blank line that ends it, and more text, split plainly. */
  lemma BlockThenMore<P>(of: string -> Option<P>, block: string, more: string)
    requires of("") == None
    ensures FilterMap(of, Lines.Split(block + "\n" + ("\n" + more)))
            == FilterMap(of, Lines.Split(block)) + FilterMap(of, Lines.Split(more))
  {
    Lines.SplitAtNewline(block, "\n" + more);
    assert ("\n" + more)[1..] == more;
    FilterMapAppend(of, Lines.Split(block), Lines.Split("\n" + more));
    SkipFirst(of, "", Lines.Split(more));
  }

  // ----- what a value is -----

  /** The 25 characters Unicode lists as White_Space, by number. */
  const SPACES := {
    9, 10, 11, 12, 13, 32, 133, 160, 5760,
    8192, 8193, 8194, 8195, 8196, 8197, 8198, 8199, 8200, 8201, 8202,
    8232, 8233, 8239, 8287, 12288}

  lemma WhitespaceMeans(c: char)
    ensures IsWhitespace(c) <==> c as int in SPACES
  {
  }

  predicate AllSpace(s: string) {
    forall i :: 0 <= i < |s| ==> IsWhitespace(s[i])
  }

  /** Neither starts nor ends with white space. */
  predicate Trimmed(s: string) {
    s != "" ==> !IsWhitespace(s[0]) && !IsWhitespace(s[|s| - 1])
  }

  lemma {:induction false} TrimStartMeans(s: string) returns (front: string)
    ensures AllSpace(front) && s == front + TrimStart(s)
    ensures TrimStart(s) != "" ==> !IsWhitespace(TrimStart(s)[0])
  {
    if s != "" && IsWhitespace(s[0]) {
      var rest := TrimStartMeans(s[1..]);
      front := [s[0]] + rest;
    } else {
      front := "";
    }
  }

  lemma {:induction false} TrimEndMeans(s: string) returns (back: string)
    ensures AllSpace(back) && s == TrimEnd(s) + back
    ensures TrimEnd(s) != "" ==> !IsWhitespace(TrimEnd(s)[|TrimEnd(s)| - 1])
  {
    if s != "" && IsWhitespace(s[|s| - 1]) {
      var rest := TrimEndMeans(s[..|s| - 1]);
      back := rest + [s[|s| - 1]];
      assert s == s[..|s| - 1] + [s[|s| - 1]];
    } else {
      back := "";
    }
  }

  lemma TrimMeans(s: string) returns (front: string, back: string)
    ensures AllSpace(front) && AllSpace(back) && s == front + Trim(s) + back && Trimmed(Trim(s))
  {
    front := TrimStartMeans(s);
    back := TrimEndMeans(TrimStart(s));
    assert TrimStart(s) == Trim(s) + back;
    assert Trim(s) != "" ==> Trim(s)[0] == TrimStart(s)[0];
  }

  /** A line that says `data:`, white space, the value, white space. */
  ghost predicate Says(line: string, v: string, front: string, back: string) {
    AllSpace(front) && AllSpace(back) && line == "data:" + front + v + back
  }

  /** The space that may follow `data:` is white space like any other. */
  lemma DataOfTrims(line: string)
    ensures DataOf(line) == if "data:" <= line then Some(Trim(line[5..])) else None
  {
    if "data: " <= line {
      assert line[..5] == "data: "[..5] == "data:";
      assert line[5] == "data: "[5] == ' ';
      assert line[5..][1..] == line[6..];
      assert TrimStart(line[5..]) == TrimStart(line[6..]);
    }
  }

  /**
    A line has a value exactly when it starts with `data:`, and the value is
    what stands between the white space around the rest.
  */
  lemma DataOfMeans(line: string) returns (front: string, back: string)
    ensures DataOf(line).Some? <==> "data:" <= line
    ensures DataOf(line).Some? ==> Trimmed(DataOf(line).value) && Says(line, DataOf(line).value, front, back)
  {
    front, back := "", "";
    DataOfTrims(line);
    if "data:" <= line {
      front, back := TrimMeans(line[5..]);
      Spoken(line, Trim(line[5..]), front, back);
    }
  }

  lemma Spoken(line: string, v: string, front: string, back: string)
    requires "data:" <= line && line[5..] == front + v + back && AllSpace(front) && AllSpace(back)
    ensures Says(line, v, front, back)
  {
    assert line == "data:" + line[5..];
    assert "data:" + (front + v + back) == "data:" + front + v + back;
  }

  /** The text up to and including the last cut. */
  function Consumed(s: string): string
    decreases |s|
  {
    match FindBlank(s)
    case None => ""
    case Some(pos) => s[..pos] + "\n" + ("\n" + Consumed(s[pos + 2..]))
  }

  lemma {:induction false} ConsumedAndRest(s: string)
    ensures Consumed(s) + Rest(s) == s
    decreases |s|
  {
    if FindBlank(s).Some? {
      var p := FindBlank(s).value;
      ConsumedAndRest(s[p + 2..]);
      assert s == s[..p] + "\n" + ("\n" + s[p + 2..]);
    }
  }

  /** Whether `block` reads a block as the values of its plain pieces. */
  ghost predicate ReadsPlainly<P(!new)>(of: string -> Option<P>, block: string -> seq<P>) {
    of("") == None && forall b :: block(b) == FilterMap(of, Lines.Split(b))
  }

  lemma PlainEmpty<P>(of: string -> Option<P>)
    requires of("") == None
    ensures FilterMap(of, Lines.Split("")) == []
  {
    SkipFirst(of, "", []);
    assert [""] + [] == [""];
  }

  lemma PlainStep<P(!new)>(of: string -> Option<P>, block: string -> seq<P>, b: string, more: string)
    requires ReadsPlainly(of, block)
    ensures block(b) + FilterMap(of, Lines.Split(more)) == FilterMap(of, Lines.Split(b + "\n" + ("\n" + more)))
  {
    BlockThenMore(of, b, more);
  }

  lemma {:induction false} CarriedPlain<P(!new)>(of: string -> Option<P>, block: string -> seq<P>, s: string)
    requires ReadsPlainly(of, block)
    ensures Carried(block, s) == FilterMap(of, Lines.Split(Consumed(s)))
    decreases |s|
  {
    match FindBlank(s)
    case None => PlainEmpty(of);
    case Some(p) =>
      CarriedPlain(of, block, s[p + 2..]);
      PlainStep(of, block, s[..p], Consumed(s[p + 2..]));
  }

  /**
    The values a text carries are those of its `data:` lines up to the last
    cut, the text split at every newline with no regard to blocks; what
    follows the last cut has no blank line in it and carries nothing.
  */
  lemma {:induction false} CarriedIsDataLines(s: string)
    ensures Carried(BlockData, s) == FilterMap(DataOf, Lines.Split(Consumed(s)))
    ensures Consumed(s) + Rest(s) == s && FindBlank(Rest(s)).None?
  {
    forall b ensures BlockData(b) == FilterMap(DataOf, Lines.Split(b)) { BlockDataPlain(b); }
    CarriedPlain(DataOf, BlockData, s);
    ConsumedAndRest(s);
  }

  /** The text up to the last cut is nothing, or ends in a blank line. */
  lemma {:induction false} ConsumedEnds(s: string)
    ensures Consumed(s) == "" || (|Consumed(s)| >= 2 && Consumed(s)[|Consumed(s)| - 2..] == "\n\n")
    decreases |s|
  {
    if FindBlank(s).Some? {
      var p := FindBlank(s).value;
      ConsumedEnds(s[p + 2..]);
      var rest := Consumed(s[p + 2..]);
      assert Consumed(s) == s[..p] + "\n" + ("\n" + rest);
      if rest == "" {
        assert Consumed(s)[p..] == "\n\n";
      } else {
        assert Consumed(s)[|Consumed(s)| - 2..] == rest[|rest| - 2..];
      }
    }
  }

  /** Delivery of these values up to a `[DONE]`, or to the call that raises. */
  ghost predicate DeliveredUpTo(data: seq<string>, raises: nat -> bool, calls: seq<string>, outcome: Outcome) {
    && calls <= data
    && (forall k :: 0 <= k < |calls| ==> calls[k] != "[DONE]")
    && (forall k :: 0 <= k < |calls| - 1 ==> !raises(k))
    && match outcome
       case Going => calls == data && (calls != [] ==> !raises(|calls| - 1))
       case StoppedAtDone => |calls| < |data| && data[|calls|] == "[DONE]" && (calls != [] ==> !raises(|calls| - 1))
       case CallbackRaised => calls != [] && raises(|calls| - 1)
  }

  /**
    What reading a whole text does, without the words of the reader: with
    the values of its `data:` lines up to the last blank line, the callback
    gets them in order up to the text `[DONE]`; with no callback only that
    text stops anything; and a read fails only if nothing stopped it.
  */
  lemma ReadTextMeans(text: string, callback: bool, raises: nat -> bool, end: End) returns (data: seq<string>)
    ensures IsFilterMap(DataOf, Lines.Split(Consumed(text)), data)
    ensures Read(data, callback, raises, end, ReadText(text, Listening(callback, raises), end))
  {
    data := Carried(BlockData, text);
    CarriedIsDataLines(text);
    var at := FilterMapMeans(DataOf, Lines.Split(Consumed(text)));
    if callback {
      CallbackGets(data, raises);
    } else {
      SilentRead(data, raises);
    }
  }

  ghost predicate Read(data: seq<string>, callback: bool, raises: nat -> bool, end: End, r: Result) {
    && (if callback then DeliveredUpTo(data, raises, r.calls, r.outcome)
        else r.calls == [] && r.outcome == if "[DONE]" in data then StoppedAtDone else Going)
    && (r.failed <==> r.outcome == Going && end == ReadError)
  }

  lemma CallbackGets(data: seq<string>, raises: nat -> bool)
    ensures var r := Feed(Listening(true, raises), [], data);
            DeliveredUpTo(data, raises, r.calls, r.outcome)
  {
    FeedMeaning(Listening(true, raises), [], data);
    var r := Feed(Listening(true, raises), [], data);
    assert r.calls[0..] == r.calls && [] + data == data;
  }

  lemma SilentRead(data: seq<string>, raises: nat -> bool)
    ensures var r := Feed(Listening(false, raises), [], data);
            r.calls == [] && r.outcome == if "[DONE]" in data then StoppedAtDone else Going
  {
    var to := Listening(false, raises);
    FeedSilent(to, [], data);
    assert "[DONE]" in data <==> exists i :: 0 <= i < |data| && to.done(data[i]);
  }
}
