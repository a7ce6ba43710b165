/**
  Line framing. Both ends call read-until-newline with a fresh buffer each time: chunks are appended
  to the buffer until it holds a newline, the line is handed over, and whatever else the last chunk
  brought is thrown away with the buffer.
 */
module Framing {
  import opened Lists

  /** Where read-until stops: the first newline, or -1. */
  function NewlineAt(s: string): (i: int)
    ensures -1 <= i < |s|
  {
    if s == "" then -1
    else if s[0] == '\n' then 0
    else
      var r := NewlineAt(s[1..]);
      if r == -1 then -1 else r + 1
  }

  /** A newline-free text is not cut, and one that goes on with a newline is cut there. */
  lemma {:induction false} NewlineAtIs(x: string, rest: string)
    requires '\n' !in x
    ensures NewlineAt(x) == -1 && NewlineAt(x + "\n" + rest) == |x|
  {
    if x == "" {
      assert x + "\n" + rest == "\n" + rest;
    } else {
      assert x[0] in x && x == [x[0]] + x[1..];
      assert (x + "\n" + rest)[1..] == x[1..] + "\n" + rest;
      NewlineAtIs(x[1..], rest);
    }
  }

  /** Conversely, every text is one of the two. */
  lemma {:induction false} NewlineSplits(s: string)
    ensures '\n' !in s <==> NewlineAt(s) == -1
    ensures var i := NewlineAt(s);
            i != -1 ==> '\n' !in s[..i] && s == s[..i] + "\n" + s[i + 1..]
  {
    if s != "" {
      var tail := s[1..];
      assert s == [s[0]] + tail;
      if s[0] == '\n' {
        assert s[..0] == "" && s == "" + "\n" + tail;
      } else {
        NewlineSplits(tail);
        if NewlineAt(tail) != -1 {
          SplitCons(s[0], tail, NewlineAt(tail));
        }
      }
    }
  }

  lemma SplitCons(c: char, tail: string, r: nat)
    requires c != '\n' && r < |tail| && '\n' !in tail[..r]
    requires tail == tail[..r] + "\n" + tail[r + 1..]
    ensures var s := [c] + tail;
            '\n' !in s[..r + 1] && s == s[..r + 1] + "\n" + s[r + 2..]
  {
    var s := [c] + tail;
    assert s[..r + 1] == [c] + tail[..r];
    assert s[r + 2..] == tail[r + 1..];
  }

  function Concat(chunks: seq<string>): string {
    if chunks == [] then "" else chunks[0] + Concat(chunks[1..])
  }

  /** The complete lines of a stream, without their newlines. */
  function Lines(s: string): seq<string>
    decreases |s|
  {
    var i := NewlineAt(s);
    if i == -1 then [] else [s[..i]] + Lines(s[i + 1..])
  }

  /** What follows the last newline. */
  function Unfinished(s: string): string
    decreases |s|
  {
    var i := NewlineAt(s);
    if i == -1 then s else Unfinished(s[i + 1..])
  }

  /** The lines handed over, with buf already read and the chunks still to come. */
  function Frames(buf: string, chunks: seq<string>): seq<string>
    decreases |chunks|
  {
    if chunks == [] then []
    else
      var data := buf + chunks[0];
      var i := NewlineAt(data);
      if i == -1 then Frames(data, chunks[1..]) else [data[..i]] + Frames("", chunks[1..])
  }

  /** What a chunk brings before its first newline. */
  function Kept(chunk: string): string {
    var i := NewlineAt(chunk);
    if i == -1 then chunk else chunk[..i]
  }

  /** What a chunk brings after its first newline, which nobody gets to see. */
  function Discarded(chunk: string): string {
    var i := NewlineAt(chunk);
    if i == -1 then "" else chunk[i + 1..]
  }

  predicate HasNewline(chunks: seq<string>) {
    exists i :: 0 <= i < |chunks| && '\n' in chunks[i]
  }

  /* ----- lines of a concatenation ----- */

  lemma LinesCut(x: string, rest: string)
    requires '\n' !in x
    ensures Lines(x + "\n" + rest) == [x] + Lines(rest)
    ensures Unfinished(x + "\n" + rest) == Unfinished(rest)
    ensures Lines(x) == [] && Unfinished(x) == x
  {
    NewlineAtIs(x, rest);
    var s := x + "\n" + rest;
    assert s[..|x|] == x && s[|x| + 1..] == rest;
  }

  lemma {:induction false} UnfinishedHasNoNewline(s: string)
    ensures '\n' !in Unfinished(s)
    decreases |s|
  {
    NewlineSplits(s);
    if NewlineAt(s) != -1 {
      UnfinishedHasNoNewline(s[NewlineAt(s) + 1..]);
    }
  }

  lemma {:induction false} LinesOfConcat(a: string, b: string)
    ensures Lines(a + b) == Lines(a) + Lines(Unfinished(a) + b)
    decreases |a|
  {
    CutAtNewline(a);
    if '\n' in a {
      LinesOfConcat(Discarded(a), b);
      ConcatStep(Kept(a), Discarded(a), b);
    } else {
      LinesCut(a, "");
    }
  }

  lemma ConcatStep(x: string, rest: string, b: string)
    requires '\n' !in x
    requires Lines(rest + b) == Lines(rest) + Lines(Unfinished(rest) + b)
    ensures var a := x + "\n" + rest;
            Lines(a + b) == Lines(a) + Lines(Unfinished(a) + b)
  {
    CutAppended(x, rest, b);
    LinesCut(x, rest);
    Regroup([x], Lines(rest), Lines(Unfinished(rest) + b));
  }

  lemma CutAppended(x: string, rest: string, b: string)
    requires '\n' !in x
    ensures Lines(x + "\n" + rest + b) == [x] + Lines(rest + b)
  {
    LinesCut(x, rest + b);
    assert x + "\n" + rest + b == x + "\n" + (rest + b);
  }

  /** A newline-free prefix only lengthens the first line. */
  lemma LinesOfPrefix(u: string, s: string)
    requires '\n' !in u
    ensures '\n' !in s ==> Lines(u + s) == [] && Lines(s) == []
    ensures '\n' in s ==> Lines(s) == [Kept(s)] + Lines(Discarded(s)) && Lines(u + s) == [u + Kept(s)] + Lines(Discarded(s))
  {
    CutAtNewline(s);
    if '\n' in s {
      LinesCut(Kept(s), Discarded(s));
      PrefixStep(u, Kept(s), Discarded(s));
    } else {
      LinesCut(u + s, "");
      LinesCut(s, "");
    }
  }

  lemma PrefixStep(u: string, x: string, rest: string)
    requires '\n' !in u && '\n' !in x
    ensures Lines(u + (x + "\n" + rest)) == [u + x] + Lines(rest)
  {
    assert u + (x + "\n" + rest) == (u + x) + "\n" + rest;
    LinesCut(u + x, rest);
  }

  lemma CutAtNewline(s: string)
    ensures '\n' !in Kept(s)
    ensures '\n' in s ==> s == Kept(s) + "\n" + Discarded(s)
    ensures '\n' !in s ==> s == Kept(s) && Discarded(s) == ""
  {
    NewlineSplits(s);
  }

  lemma {:induction false} NewlineInConcat(chunks: seq<string>)
    ensures '\n' in Concat(chunks) <==> HasNewline(chunks)
  {
    if chunks != [] {
      NewlineInConcat(chunks[1..]);
      if '\n' in chunks[0] {
        assert HasNewline(chunks);
      } else if HasNewline(chunks) {
        var i :| 0 <= i < |chunks| && '\n' in chunks[i];
        assert chunks[1..][i - 1] == chunks[i];
      } else {
        forall i | 0 <= i < |chunks[1..]| ensures '\n' !in chunks[1..][i] {
          assert chunks[1..][i] == chunks[i + 1];
        }
      }
    }
  }

  /* ----- what framing never breaks ----- */

  ghost predicate IsSuffix(a: string, b: string) {
    |a| <= |b| && b[|b| - |a|..] == a
  }

  /** source maps each handled line to the sent line it ends, in order and without repetition. */
  ghost predicate Embeds(handled: seq<string>, sent: seq<string>, source: seq<nat>) {
    && |source| == |handled|
    && (forall i :: 0 <= i < |source| ==> source[i] < |sent| && IsSuffix(handled[i], sent[source[i]]))
    && (forall i, j :: 0 <= i < j < |source| ==> source[i] < source[j])
  }

  function Shifted(source: seq<nat>, n: nat): (r: seq<nat>)
    ensures |r| == |source|
    ensures forall i :: 0 <= i < |r| ==> r[i] == source[i] + n
  {
    seq(|source|, i requires 0 <= i < |source| => source[i] + n)
  }

  /** One step of the framing: either the chunk has no newline, or it ends a line and its tail is lost. */
  lemma FrameStep(buf: string, chunks: seq<string>)
    requires '\n' !in buf && chunks != []
    ensures '\n' !in chunks[0] ==> Frames(buf, chunks) == Frames(buf + chunks[0], chunks[1..])
    ensures '\n' in chunks[0] ==> Frames(buf, chunks) == [buf + Kept(chunks[0])] + Frames("", chunks[1..])
  {
    CutAtNewline(chunks[0]);
    if '\n' in chunks[0] {
      CutData(buf, Kept(chunks[0]), Discarded(chunks[0]));
    } else {
      NewlineAtIs(buf + chunks[0], "");
    }
  }

  lemma CutData(buf: string, x: string, rest: string)
    requires '\n' !in buf && '\n' !in x
    ensures var data := buf + (x + "\n" + rest);
            NewlineAt(data) == |buf + x| && data[..|buf + x|] == buf + x
  {
    NewlineAtIs(buf + x, rest);
    assert buf + (x + "\n" + rest) == buf + x + "\n" + rest;
  }

  /** The stream's lines at such a step: the one just ended, those inside the lost tail, and the rest. */
  lemma StreamStep(start: string, chunk: string, more: string)
    requires '\n' !in start && '\n' in chunk
    ensures Lines(start + (chunk + more)) ==
            [start + Kept(chunk)] + (Lines(Discarded(chunk)) + Lines(Unfinished(Discarded(chunk)) + more))
  {
    CutAtNewline(chunk);
    var x, tail := start + Kept(chunk), Discarded(chunk);
    assert start + (chunk + more) == x + "\n" + (tail + more) by {
      assert start + ((Kept(chunk) + "\n" + tail) + more) == (start + Kept(chunk)) + "\n" + (tail + more);
    }
    LinesCut(x, tail + more);
    LinesOfConcat(tail, more);
  }

  /**
    Over every chunking, the handled lines are suffixes of distinct complete lines of the stream, in
    order. Generalised: lost is what was thrown away at the start of the current line.
   */
  lemma {:induction false} FramesEmbed(lost: string, buf: string, chunks: seq<string>) returns (source: seq<nat>)
    requires '\n' !in lost && '\n' !in buf
    ensures Embeds(Frames(buf, chunks), Lines(lost + buf + Concat(chunks)), source)
    decreases |chunks|
  {
    if chunks == [] {
      source := [];
    } else if '\n' !in chunks[0] {
      source := FramesEmbed(lost, buf + chunks[0], chunks[1..]);
      EmbedMore(lost, buf, chunks[0], chunks[1..], source);
      assert chunks == [chunks[0]] + chunks[1..];
    } else {
      var left := Unfinished(Discarded(chunks[0]));
      UnfinishedHasNoNewline(Discarded(chunks[0]));
      var inner := FramesEmbed(left, "", chunks[1..]);
      assert left + "" + Concat(chunks[1..]) == left + Concat(chunks[1..]);
      source := EmbedNext(lost, buf, chunks[0], chunks[1..], inner);
      assert chunks == [chunks[0]] + chunks[1..];
    }
  }

  /** The step at a chunk without a newline. */
  lemma EmbedMore(lost: string, buf: string, chunk: string, rest: seq<string>, source: seq<nat>)
    requires '\n' !in buf && '\n' !in chunk
    requires Embeds(Frames(buf + chunk, rest), Lines(lost + (buf + chunk) + Concat(rest)), source)
    ensures Embeds(Frames(buf, [chunk] + rest), Lines(lost + buf + Concat([chunk] + rest)), source)
  {
    assert ([chunk] + rest)[1..] == rest;
    FrameStep(buf, [chunk] + rest);
    SameStream(lost, buf, chunk, Concat(rest));
  }

  lemma SameStream(lost: string, buf: string, chunk: string, more: string)
    ensures lost + buf + (chunk + more) == lost + (buf + chunk) + more
  {
  }

  /** The step at a chunk that ends a line. */
  lemma EmbedNext(lost: string, buf: string, chunk: string, rest: seq<string>, inner: seq<nat>) returns (source: seq<nat>)
    requires '\n' !in lost && '\n' !in buf && '\n' in chunk
    requires Embeds(Frames("", rest), Lines(Unfinished(Discarded(chunk)) + Concat(rest)), inner)
    ensures Embeds(Frames(buf, [chunk] + rest), Lines(lost + buf + Concat([chunk] + rest)), source)
  {
    var tail, start := Discarded(chunk), lost + buf;
    assert ([chunk] + rest)[1..] == rest;
    FrameStep(buf, [chunk] + rest);
    StreamStep(start, chunk, Concat(rest));
    SuffixAfter(lost, buf, Kept(chunk));
    source := EmbedStep(Frames(buf, [chunk] + rest), buf + Kept(chunk), Frames("", rest),
                        Lines(start + Concat([chunk] + rest)), start + Kept(chunk), Lines(tail),
                        Lines(Unfinished(tail) + Concat(rest)), inner);
  }

  lemma SuffixAfter(lost: string, buf: string, kept: string)
    ensures IsSuffix(buf + kept, (lost + buf) + kept)
  {
    assert (lost + buf) + kept == lost + (buf + kept);
  }

  lemma EmbedStep(all: seq<string>, line: string, frames: seq<string>, stream: seq<string>, first: string,
                  skipped: seq<string>, sent: seq<string>, inner: seq<nat>)
      returns (source: seq<nat>)
    requires all == [line] + frames && stream == [first] + (skipped + sent)
    requires IsSuffix(line, first)
    requires Embeds(frames, sent, inner)
    ensures Embeds(all, stream, source)
  {
    source := [0] + Shifted(inner, 1 + |skipped|);
  }

  /** Framing invents nothing and reorders nothing. */
  lemma HandledLinesEmbed(chunks: seq<string>)
    ensures exists source :: Embeds(Frames("", chunks), Lines(Concat(chunks)), source)
  {
    var source := FramesEmbed("", "", chunks);
    assert "" + "" + Concat(chunks) == Concat(chunks);
  }

  /* ----- when framing is exact ----- */

  /** Nothing that matters follows a newline inside its chunk: nothing at all, or an unfinished line that never ends. */
  predicate Clean(chunks: seq<string>) {
    chunks == [] ||
    (var t := Discarded(chunks[0]);
     && ('\n' in chunks[0] ==> t == "" || ('\n' !in t && !HasNewline(chunks[1..])))
     && Clean(chunks[1..]))
  }

  lemma FrameCount(chunks: seq<string>)
    ensures |Frames("", chunks)| <= |Lines(Concat(chunks))|
  {
    var source := FramesEmbed("", "", chunks);
    assert "" + "" + Concat(chunks) == Concat(chunks);
    var n := |Lines(Concat(chunks))|;
    if |source| > n {
      Increasing(source, n);
    }
  }

  lemma {:induction false} Increasing(source: seq<nat>, i: nat)
    requires forall a, b :: 0 <= a < b < |source| ==> source[a] < source[b]
    requires i < |source|
    ensures source[i] >= i
  {
    if i > 0 {
      Increasing(source, i - 1);
    }
  }

  /** The two sequences begin with the same line. */
  predicate SameHead(a: seq<string>, b: seq<string>) {
    a != [] && b != [] && a[0] == b[0]
  }

  lemma {:induction false} FirstFrameIsFirstLine(chunks: seq<string>, buf: string)
    requires HasNewline(chunks) && '\n' !in buf
    ensures SameHead(Frames(buf, chunks), Lines(buf + Concat(chunks)))
    decreases |chunks|
  {
    if '\n' in chunks[0] {
      FirstFrameHere(chunks[0], chunks[1..], buf);
      assert chunks == [chunks[0]] + chunks[1..];
    } else {
      FrameStep(buf, chunks);
      NewlineLater(chunks);
      FirstFrameIsFirstLine(chunks[1..], buf + chunks[0]);
      assert buf + Concat(chunks) == (buf + chunks[0]) + Concat(chunks[1..]);
    }
  }

  lemma FirstFrameHere(chunk: string, rest: seq<string>, buf: string)
    requires '\n' in chunk && '\n' !in buf
    ensures SameHead(Frames(buf, [chunk] + rest), Lines(buf + Concat([chunk] + rest)))
  {
    assert ([chunk] + rest)[1..] == rest;
    FrameStep(buf, [chunk] + rest);
    StreamStep(buf, chunk, Concat(rest));
    HeadsOf(buf + Kept(chunk), Frames("", rest),
            Lines(Discarded(chunk)) + Lines(Unfinished(Discarded(chunk)) + Concat(rest)));
  }

  lemma HeadsOf(x: string, a: seq<string>, b: seq<string>)
    ensures SameHead([x] + a, [x] + b)
  {
  }

  lemma NewlineLater(chunks: seq<string>)
    requires HasNewline(chunks) && '\n' !in chunks[0]
    ensures HasNewline(chunks[1..])
  {
    var i :| 0 <= i < |chunks| && '\n' in chunks[i];
    assert chunks[1..][i - 1] == chunks[i];
  }

  lemma {:induction false} NoFrames(chunks: seq<string>, buf: string)
    requires !HasNewline(chunks) && '\n' !in buf
    ensures Frames(buf, chunks) == [] && Clean(chunks)
    decreases |chunks|
  {
    if chunks != [] {
      FrameStep(buf, chunks);
      assert '\n' !in chunks[0];
      forall i | 0 <= i < |chunks[1..]| ensures '\n' !in chunks[1..][i] {
        assert chunks[1..][i] == chunks[i + 1];
      }
      NoFrames(chunks[1..], buf + chunks[0]);
    }
  }

  /** The handled lines after a newline equal the rest of the stream's lines exactly when the discarded tail did not matter. */
  lemma TailMatters(tail: string, rest: seq<string>)
    requires Frames("", rest) == Lines(Concat(rest)) <==> Clean(rest)
    ensures Frames("", rest) == Lines(tail) + Lines(Unfinished(tail) + Concat(rest)) <==>
            (tail == "" || ('\n' !in tail && !HasNewline(rest))) && Clean(rest)
  {
    NewlineInConcat(rest);
    if '\n' in tail {
      LinesLostInTail(tail, rest);
    } else {
      LinesCut(tail, "");
      LinesOfPrefix(tail, Concat(rest));
      if HasNewline(rest) {
        FirstFrameIsFirstLine(rest, "");
        assert "" + Concat(rest) == Concat(rest);
      } else {
        NoFrames(rest, "");
      }
    }
  }

  /** A newline inside a discarded tail is a line that is never handed over. */
  lemma LinesLostInTail(tail: string, rest: seq<string>)
    requires '\n' in tail
    ensures |Frames("", rest)| < |Lines(tail)| + |Lines(Unfinished(tail) + Concat(rest))|
  {
    UnfinishedHasNoNewline(tail);
    LinesOfPrefix(Unfinished(tail), Concat(rest));
    FrameCount(rest);
    CutAtNewline(tail);
    LinesCut(Kept(tail), Discarded(tail));
  }

  /** Framing hands over exactly the sent lines if and only if the chunking is clean. */
  lemma {:induction false} FramingIsExactIff(buf: string, chunks: seq<string>)
    requires '\n' !in buf
    ensures Frames(buf, chunks) == Lines(buf + Concat(chunks)) <==> Clean(chunks)
    decreases |chunks|
  {
    if chunks == [] {
      LinesCut(buf, "");
      assert buf + Concat(chunks) == buf;
    } else {
      FrameStep(buf, chunks);
      var rest := chunks[1..];
      if '\n' !in chunks[0] {
        FramingIsExactIff(buf + chunks[0], rest);
        assert buf + Concat(chunks) == (buf + chunks[0]) + Concat(rest);
      } else {
        var tail := Discarded(chunks[0]);
        FramingIsExactIff("", rest);
        assert "" + Concat(rest) == Concat(rest);
        StreamStep(buf, chunks[0], Concat(rest));
        TailMatters(tail, rest);
        SameAfterFirst(buf + Kept(chunks[0]), Frames("", rest), Lines(tail) + Lines(Unfinished(tail) + Concat(rest)));
      }
    }
  }

  lemma SameAfterFirst(x: string, a: seq<string>, b: seq<string>)
    ensures [x] + a == [x] + b <==> a == b
  {
    if [x] + a == [x] + b {
      assert a == ([x] + a)[1..] && b == ([x] + b)[1..];
    }
  }

  /** In particular when every chunk ends with its only newline. */
  lemma {:induction false} NothingDiscarded(chunks: seq<string>)
    requires forall i :: 0 <= i < |chunks| ==> Discarded(chunks[i]) == ""
    ensures Frames("", chunks) == Lines(Concat(chunks))
  {
    AllClean(chunks);
    FramingIsExactIff("", chunks);
    assert "" + Concat(chunks) == Concat(chunks);
  }

  lemma {:induction false} AllClean(chunks: seq<string>)
    requires forall i :: 0 <= i < |chunks| ==> Discarded(chunks[i]) == ""
    ensures Clean(chunks)
  {
    if chunks != [] {
      assert Discarded(chunks[0]) == "";
      forall i | 0 <= i < |chunks[1..]| ensures Discarded(chunks[1..][i]) == "" {
        assert chunks[1..][i] == chunks[i + 1];
      }
      AllClean(chunks[1..]);
    }
  }

  /* ----- when the non-empty lines are exact ----- */

  /** What is thrown away holds no non-empty line, and its unfinished end never grows into one. */
  predicate Harmless(chunks: seq<string>) {
    chunks == [] ||
    (var t := Discarded(chunks[0]);
     && ('\n' in chunks[0] ==> NonEmpty(Lines(t)) == [] && (Unfinished(t) == "" || !HasNewline(chunks[1..])))
     && Harmless(chunks[1..]))
  }

  function Total(lines: seq<string>): nat {
    if lines == [] then 0 else |lines[0]| + Total(lines[1..])
  }

  /** Both ends ignore empty lines, which hold no text. */
  lemma {:induction false} TotalConcat(a: seq<string>, b: seq<string>)
    ensures Total(a + b) == Total(a) + Total(b)
    ensures NonEmpty(a + b) == NonEmpty(a) + NonEmpty(b)
  {
    if a == [] {
      assert a + b == b;
    } else {
      assert (a + b)[1..] == a[1..] + b;
      TotalConcat(a[1..], b);
    }
  }

  lemma {:induction false} TotalNonBlank(lines: seq<string>)
    ensures Total(NonEmpty(lines)) == Total(lines)
    ensures NonEmpty(lines) == [] <==> Total(lines) == 0
  {
    if lines != [] {
      TotalNonBlank(lines[1..]);
      TotalConcat(if lines[0] == "" then [] else [lines[0]], NonEmpty(lines[1..]));
    }
  }

  lemma TotalOfPrefix(u: string, s: string)
    requires '\n' !in u
    ensures Total(Lines(u + s)) == Total(Lines(s)) + if '\n' in s then |u| else 0
  {
    LinesOfPrefix(u, s);
  }

  /** Framing never hands over more text than was sent. */
  lemma {:induction false} FramesTotal(buf: string, chunks: seq<string>)
    requires '\n' !in buf
    ensures Total(Frames(buf, chunks)) <= Total(Lines(buf + Concat(chunks)))
    decreases |chunks|
  {
    if chunks != [] {
      FrameStep(buf, chunks);
      var rest := chunks[1..];
      if '\n' !in chunks[0] {
        FramesTotal(buf + chunks[0], rest);
        assert buf + Concat(chunks) == (buf + chunks[0]) + Concat(rest);
      } else {
        FramesTotal("", rest);
        assert "" + Concat(rest) == Concat(rest);
        assert Concat(chunks) == chunks[0] + Concat(rest);
        TotalStep(buf, chunks[0], Concat(rest));
        assert Total(Frames(buf, chunks)) == |buf + Kept(chunks[0])| + Total(Frames("", rest));
      }
    }
  }

  lemma TotalStep(buf: string, chunk: string, more: string)
    requires '\n' !in buf && '\n' in chunk
    ensures var t := Discarded(chunk);
            Total(Lines(buf + (chunk + more))) ==
            |buf + Kept(chunk)| + Total(Lines(t)) + Total(Lines(more)) + if '\n' in more then |Unfinished(t)| else 0
  {
    var t := Discarded(chunk);
    StreamStep(buf, chunk, more);
    UnfinishedHasNoNewline(t);
    TotalConcat(Lines(t), Lines(Unfinished(t) + more));
    TotalOfPrefix(Unfinished(t), more);
  }

  lemma HarmlessTail(tail: string, rest: seq<string>)
    requires NonEmpty(Frames("", rest)) == NonEmpty(Lines(Concat(rest))) <==> Harmless(rest)
    ensures NonEmpty(Frames("", rest)) == NonEmpty(Lines(tail) + Lines(Unfinished(tail) + Concat(rest))) <==>
            NonEmpty(Lines(tail)) == [] && (Unfinished(tail) == "" || !HasNewline(rest)) && Harmless(rest)
  {
    var u, more := Unfinished(tail), Concat(rest);
    NewlineInConcat(rest);
    UnfinishedHasNoNewline(tail);
    TotalConcat(Lines(tail), Lines(u + more));
    if NonEmpty(Lines(tail)) == [] && (u == "" || !HasNewline(rest)) {
      LinesOfPrefix(u, more);
      assert u == "" ==> u + more == more;
      assert [] + NonEmpty(Lines(u + more)) == NonEmpty(Lines(u + more));
    } else {
      TextLostInTail(tail, rest);
    }
  }

  /** Otherwise some text of a complete line is lost for good. */
  lemma TextLostInTail(tail: string, rest: seq<string>)
    requires NonEmpty(Lines(tail)) != [] || (Unfinished(tail) != "" && HasNewline(rest))
    ensures NonEmpty(Frames("", rest)) != NonEmpty(Lines(tail) + Lines(Unfinished(tail) + Concat(rest)))
  {
    var sent := Lines(tail) + Lines(Unfinished(tail) + Concat(rest));
    NewlineInConcat(rest);
    UnfinishedHasNoNewline(tail);
    TotalConcat(Lines(tail), Lines(Unfinished(tail) + Concat(rest)));
    TotalOfPrefix(Unfinished(tail), Concat(rest));
    TotalNonBlank(Lines(tail));
    FramesTotal("", rest);
    assert "" + Concat(rest) == Concat(rest);
    TotalNonBlank(Frames("", rest));
    TotalNonBlank(sent);
  }

  /** The non-empty lines handed over are exactly the non-empty lines sent if and only if the chunking is harmless. */
  lemma {:induction false} NonBlankExactIff(buf: string, chunks: seq<string>)
    requires '\n' !in buf
    ensures NonEmpty(Frames(buf, chunks)) == NonEmpty(Lines(buf + Concat(chunks))) <==> Harmless(chunks)
    decreases |chunks|
  {
    if chunks == [] {
      LinesCut(buf, "");
      assert buf + Concat(chunks) == buf;
    } else {
      FrameStep(buf, chunks);
      var rest := chunks[1..];
      if '\n' !in chunks[0] {
        NonBlankExactIff(buf + chunks[0], rest);
        assert buf + Concat(chunks) == (buf + chunks[0]) + Concat(rest);
      } else {
        var tail := Discarded(chunks[0]);
        NonBlankExactIff("", rest);
        assert "" + Concat(rest) == Concat(rest);
        StreamStep(buf, chunks[0], Concat(rest));
        HarmlessTail(tail, rest);
        NonBlankAfterFirst(buf + Kept(chunks[0]), Frames("", rest), Lines(tail) + Lines(Unfinished(tail) + Concat(rest)));
      }
    }
  }

  lemma NonBlankAfterFirst(x: string, a: seq<string>, b: seq<string>)
    ensures NonEmpty([x] + a) == NonEmpty([x] + b) <==> NonEmpty(a) == NonEmpty(b)
  {
    TotalConcat([x], a);
    TotalConcat([x], b);
    var head := NonEmpty([x]);
    if head + NonEmpty(a) == head + NonEmpty(b) {
      assert NonEmpty(a) == (head + NonEmpty(a))[|head|..] && NonEmpty(b) == (head + NonEmpty(b))[|head|..];
    }
  }

  /* ----- one line and its newlines ----- */

  predicate OnlyNewlines(s: string) {
    forall c :: c in s ==> c == '\n'
  }

  lemma {:induction false} NewlinesAreBlankLines(s: string)
    requires OnlyNewlines(s)
    ensures Total(Lines(s)) == 0
  {
    if s == "" {
      LinesCut("", "");
    } else {
      assert s[0] in s && forall c :: c in s[1..] ==> c in s;
      NewlinesAreBlankLines(s[1..]);
      LinesCut("", s[1..]);
      assert "" + "\n" + s[1..] == s;
    }
  }

  /**
    A line sent with one newline or more, as a group window sends it with two, is handed over exactly
    once however it is cut into chunks.
   */
  lemma {:induction false} OneLineArrives(buf: string, chunks: seq<string>, body: string, pad: string)
    requires '\n' !in buf && '\n' !in body && body != "" && OnlyNewlines(pad)
    requires buf + Concat(chunks) == body + "\n" + pad
    ensures NonEmpty(Frames(buf, chunks)) == [body]
    decreases |chunks|
  {
    assert (body + "\n" + pad)[|body|] == '\n';
    if chunks == [] {
      assert false;
    }
    FrameStep(buf, chunks);
    var rest := chunks[1..];
    if '\n' !in chunks[0] {
      assert buf + Concat(chunks) == (buf + chunks[0]) + Concat(rest);
      OneLineArrives(buf + chunks[0], rest, body, pad);
    } else {
      FirstLineIsBody(buf, chunks[0], Concat(rest), body, pad);
      NewlinesAreBlankLines(Concat(rest));
      FramesTotal("", rest);
      assert "" + Concat(rest) == Concat(rest);
      TotalNonBlank(Frames("", rest));
      TotalConcat([body], Frames("", rest));
    }
  }

  lemma FirstLineIsBody(buf: string, chunk: string, more: string, body: string, pad: string)
    requires '\n' !in buf && '\n' !in body && '\n' in chunk && OnlyNewlines(pad)
    requires buf + (chunk + more) == body + "\n" + pad
    ensures buf + Kept(chunk) == body && OnlyNewlines(more)
  {
    CutAtNewline(chunk);
    BodyBefore(buf, Kept(chunk), Discarded(chunk), more, body, pad);
  }

  lemma BodyBefore(buf: string, kept: string, tail: string, more: string, body: string, pad: string)
    requires '\n' !in buf && '\n' !in kept && '\n' !in body && OnlyNewlines(pad)
    requires buf + ((kept + "\n" + tail) + more) == body + "\n" + pad
    ensures buf + kept == body && OnlyNewlines(more)
  {
    assert buf + ((kept + "\n" + tail) + more) == (buf + kept) + "\n" + (tail + more);
    CutIsUnique(buf + kept, tail + more, body, pad);
    assert forall c :: c in more ==> c in tail + more;
  }

  lemma CutIsUnique(x: string, after: string, y: string, pad: string)
    requires '\n' !in x && '\n' !in y
    requires x + "\n" + after == y + "\n" + pad
    ensures x == y && after == pad
  {
    NewlineAtIs(x, after);
    NewlineAtIs(y, pad);
    assert x == (x + "\n" + after)[..|x|] && after == (x + "\n" + after)[|x| + 1..];
    assert y == (y + "\n" + pad)[..|y|] && pad == (y + "\n" + pad)[|y| + 1..];
  }

  /* ----- the receive loop of the client ----- */

  /** What a read of the client's socket comes back with. */
  datatype Arrival = Chunk(text: string) | Fault

  function Chunks(chunks: seq<string>): seq<Arrival> {
    if chunks == [] then [] else [Chunk(chunks[0])] + Chunks(chunks[1..])
  }

  /** The lines handed over: an error throws the buffer away, and reading goes on with a fresh one. */
  function Handed(buf: string, arrivals: seq<Arrival>): seq<string>
    decreases |arrivals|
  {
    if arrivals == [] then []
    else if arrivals[0].Fault? then Handed("", arrivals[1..])
    else
      var data := buf + arrivals[0].text;
      var i := NewlineAt(data);
      if i == -1 then Handed(data, arrivals[1..]) else [data[..i]] + Handed("", arrivals[1..])
  }

  /** Each stretch between errors is framed on its own; without errors this is plain framing. */
  lemma {:induction false} HandedAcrossFault(buf: string, chunks: seq<string>, rest: seq<Arrival>)
    ensures Handed(buf, Chunks(chunks) + [Fault] + rest) == Frames(buf, chunks) + Handed("", rest)
    ensures Handed(buf, Chunks(chunks)) == Frames(buf, chunks)
    decreases |chunks|
  {
    if chunks == [] {
      assert ([Fault] + rest)[1..] == rest;
      assert Chunks(chunks) + [Fault] + rest == [Fault] + rest;
    } else {
      var data := buf + chunks[0];
      var tail := Chunks(chunks[1..]);
      assert (Chunks(chunks) + [Fault] + rest)[1..] == tail + [Fault] + rest;
      assert Chunks(chunks)[1..] == tail;
      HandedAcrossFault(if NewlineAt(data) == -1 then data else "", chunks[1..], rest);
    }
  }

  /** How one call of read_until ends. */
  datatype Reading = GotLine(line: string) | Failed | Stopped

  function LineOf(reading: Reading): seq<string> {
    if reading.GotLine? then [reading.line] else []
  }

  class ChatClient {
    var messages: seq<string> // what the message callback was given

    constructor ()
      ensures messages == []
    {
      messages := [];
    }

    /** boost::asio::read_until on a fresh buffer; next is the first arrival not yet looked at. */
    method ReadUntilNewline(arrivals: seq<Arrival>, start: nat) returns (reading: Reading, next: nat)
      requires start <= |arrivals|
      ensures start <= next <= |arrivals| && (!reading.Stopped? ==> start < next)
      ensures Handed("", arrivals[start..]) ==
              LineOf(reading) + if reading.Stopped? then [] else Handed("", arrivals[next..])
    {
      var buffer := "";
      next := start;
      while next < |arrivals|
        invariant start <= next <= |arrivals|
        invariant '\n' !in buffer
        invariant Handed(buffer, arrivals[next..]) == Handed("", arrivals[start..])
      {
        assert arrivals[next..][0] == arrivals[next] && arrivals[next..][1..] == arrivals[next + 1..];
        var arrival := arrivals[next];
        next := next + 1;
        if arrival.Fault? {
          return Failed, next;
        }
        buffer := buffer + arrival.text;
        NewlineSplits(buffer);
        var i := NewlineAt(buffer);
        if i != -1 {
          return GotLine(buffer[..i]), next;
        }
      }
      return Stopped, next;
    }

    /** One turn of the receive loop; after an error it tries again, with a fresh buffer. */
    method ReceiveOne(arrivals: seq<Arrival>, start: nat) returns (running: bool, next: nat)
      requires start <= |arrivals|
      modifies this
      ensures start <= next <= |arrivals| && (running ==> start < next)
      ensures messages + (if running then NonEmpty(Handed("", arrivals[next..])) else [])
           == old(messages) + NonEmpty(Handed("", arrivals[start..]))
    {
      var reading;
      reading, next := ReadUntilNewline(arrivals, start);
      running := !reading.Stopped?;
      TotalConcat(LineOf(reading), if running then Handed("", arrivals[next..]) else []);
      if reading.GotLine? && reading.line != "" {
        messages := messages + [reading.line];
      }
    }

    /** The receive thread, until it is stopped. Empty messages are not passed on. */
    method Receive(arrivals: seq<Arrival>)
      modifies this
      ensures messages == old(messages) + NonEmpty(Handed("", arrivals))
    {
      var next := 0;
      var running := true;
      ghost var left := NonEmpty(Handed("", arrivals)); // what the rest of the stream will add
      assert arrivals[0..] == arrivals;
      while running
        invariant next <= |arrivals|
        invariant left == if running then NonEmpty(Handed("", arrivals[next..])) else []
        invariant messages + left == old(messages) + NonEmpty(Handed("", arrivals))
        decreases running, |arrivals| - next
      {
        running, next := ReceiveOne(arrivals, next);
        left := if running then NonEmpty(Handed("", arrivals[next..])) else [];
      }
    }
  }
}
