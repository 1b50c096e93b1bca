/**
 * The JSONC comment stripper (src/monaco/tsconfig.ts:2-37): the scanner, the token lists it is the
 * inverse of, and the proof that stripping twice is stripping once.
 */
module Jsonc {

  // ---- What the scanner skips over, as lengths of the text it is given ----

  /** How much of `s` belongs to a string whose opening quote came just before `s`. */
  function StringLength(s: string): (n: nat)
    ensures n <= |s|
  {
    if s == "" then 0
    else if s[0] == '\\' then if |s| == 1 then 1 else 2 + StringLength(s[2..])
    else if s[0] == '"' then 1
    else 1 + StringLength(s[1..])
  }

  /** How much of `s` comes before its first line break. */
  function LineLength(s: string): (n: nat)
    ensures n <= |s|
  {
    if s == "" || s[0] == '\n' then 0 else 1 + LineLength(s[1..])
  }

  predicate ClosesBlock(s: string) {
    |s| >= 2 && s[0] == '*' && s[1] == '/'
  }

  /** How much of `s` belongs to a block comment whose opening came just before `s`. */
  function BlockLength(s: string): (n: nat)
    ensures n <= |s|
  {
    if s == "" then 0 else if ClosesBlock(s) then 2 else 1 + BlockLength(s[1..])
  }

  predicate OpensLine(s: string) {
    |s| >= 2 && s[0] == '/' && s[1] == '/'
  }

  predicate OpensBlock(s: string) {
    |s| >= 2 && s[0] == '/' && s[1] == '*'
  }

  /** `stripJsonComments`. */
  function Strip(s: string): string
    decreases |s|
  {
    if s == "" then ""
    else if s[0] == '"' then
      var n := 1 + StringLength(s[1..]);
      s[..n] + Strip(s[n..])
    else if OpensLine(s) then Strip(s[2 + LineLength(s[2..])..])
    else if OpensBlock(s) then Strip(s[2 + BlockLength(s[2..])..])
    else [s[0]] + Strip(s[1..])
  }

  // ---- Segments ----

  /** A text as its author sees it. An unclosed string or comment can only come last. */
  datatype Segment =
    | Plain(c: char)
    | Quoted(body: string, closed: bool)
    | LineComment(body: string)
    | BlockComment(body: string, closed: bool)

  function RenderOne(seg: Segment): string {
    match seg
    case Plain(c) => [c]
    case Quoted(body, closed) => ['"'] + body + (if closed then ['"'] else "")
    case LineComment(body) => "//" + body
    case BlockComment(body, closed) => "/*" + body + (if closed then "*/" else "")
  }

  function Render(segs: seq<Segment>): string {
    if segs == [] then "" else RenderOne(segs[0]) + Render(segs[1..])
  }

  predicate IsComment(seg: Segment) {
    seg.LineComment? || seg.BlockComment?
  }

  /** The segments that are not comments. */
  function Kept(segs: seq<Segment>): seq<Segment> {
    if segs == [] then []
    else (if IsComment(segs[0]) then [] else [segs[0]]) + Kept(segs[1..])
  }

  /** A string body: characters other than quote and backslash, and escape pairs. */
  predicate StringBody(s: string) {
    s == "" ||
    (if s[0] == '\\' then |s| >= 2 && StringBody(s[2..]) else s[0] != '"' && StringBody(s[1..]))
  }

  /** The body of a string that is never closed: it may also end in a lone backslash. */
  predicate OpenStringBody(s: string) {
    s == "" ||
    (if s[0] == '\\' then |s| == 1 || OpenStringBody(s[2..]) else s[0] != '"' && OpenStringBody(s[1..]))
  }

  predicate BlockBody(s: string) {
    s == "" || (!ClosesBlock(s) && BlockBody(s[1..]))
  }

  /** A segment may stand in front of the text `next`. */
  predicate Fits(seg: Segment, next: string) {
    match seg
    case Plain(c) => c != '"' && (c == '/' ==> next == "" || (next[0] != '/' && next[0] != '*'))
    case Quoted(body, closed) => if closed then StringBody(body) else OpenStringBody(body) && next == ""
    case LineComment(body) => '\n' !in body && (next == "" || next[0] == '\n')
    case BlockComment(body, closed) => BlockBody(body) && (closed || next == "")
  }

  predicate WellFormed(segs: seq<Segment>) {
    segs == [] || (Fits(segs[0], Render(segs[1..])) && WellFormed(segs[1..]))
  }

  // ---- Lengths of rendered segments ----

  lemma {:induction false} ClosedStringLength(body: string, next: string)
    requires StringBody(body)
    ensures StringLength(body + ['"'] + next) == |body| + 1
  {
    var s := body + ['"'] + next;
    if body != "" {
      if body[0] == '\\' {
        assert s[2..] == body[2..] + ['"'] + next;
        ClosedStringLength(body[2..], next);
      } else {
        assert s[1..] == body[1..] + ['"'] + next;
        ClosedStringLength(body[1..], next);
      }
    }
  }

  lemma {:induction false} OpenStringLength(body: string)
    requires OpenStringBody(body)
    ensures StringLength(body) == |body|
  {
    if body != "" {
      if body[0] == '\\' {
        if |body| > 1 {
          OpenStringLength(body[2..]);
        }
      } else {
        OpenStringLength(body[1..]);
      }
    }
  }

  lemma {:induction false} LineBodyLength(body: string, next: string)
    requires '\n' !in body && (next == "" || next[0] == '\n')
    ensures LineLength(body + next) == |body|
  {
    if body == "" {
      assert body + next == next;
    } else {
      assert (body + next)[1..] == body[1..] + next;
      assert body[0] == (body + next)[0];
      LineBodyLength(body[1..], next);
    }
  }

  lemma {:induction false} ClosedBlockLength(body: string, next: string)
    requires BlockBody(body)
    ensures BlockLength(body + "*/" + next) == |body| + 2
  {
    var s := body + "*/" + next;
    if body == "" {
      assert s == "*/" + next;
      assert ClosesBlock(s);
    } else {
      assert s[1..] == body[1..] + "*/" + next;
      assert !ClosesBlock(s) by {
        if |body| > 1 {
          assert s[0] == body[0] && s[1] == body[1];
        } else {
          assert s[1] == '*';
        }
      }
      ClosedBlockLength(body[1..], next);
    }
  }

  lemma {:induction false} OpenBlockLength(body: string)
    requires BlockBody(body)
    ensures BlockLength(body) == |body|
  {
    if body != "" {
      OpenBlockLength(body[1..]);
    }
  }

  // ---- The stripper is the inverse of the printer ----

  lemma {:induction false} StripQuoted(body: string, closed: bool, next: string)
    requires Fits(Quoted(body, closed), next)
    ensures Strip(RenderOne(Quoted(body, closed)) + next) == RenderOne(Quoted(body, closed)) + Strip(next)
  {
    hide StringLength, StringBody, OpenStringBody;
    var head := RenderOne(Quoted(body, closed));
    var s := head + next;
    if closed {
      assert s[1..] == body + ['"'] + next;
      ClosedStringLength(body, next);
    } else {
      assert s[1..] == body;
      OpenStringLength(body);
    }
    assert s[..|head|] == head && s[|head|..] == next;
  }

  lemma {:induction false} StripLine(body: string, next: string)
    requires Fits(LineComment(body), next)
    ensures Strip(RenderOne(LineComment(body)) + next) == Strip(next)
  {
    hide LineLength;
    var s := RenderOne(LineComment(body)) + next;
    assert OpensLine(s) && s[2..] == body + next;
    LineBodyLength(body, next);
    assert s[2 + |body|..] == next;
  }

  lemma {:induction false} StripBlock(body: string, closed: bool, next: string)
    requires Fits(BlockComment(body, closed), next)
    ensures Strip(RenderOne(BlockComment(body, closed)) + next) == Strip(next)
  {
    hide BlockLength, BlockBody;
    var head := RenderOne(BlockComment(body, closed));
    var s := head + next;
    assert OpensBlock(s) && !OpensLine(s);
    if closed {
      assert s[2..] == body + "*/" + next;
      ClosedBlockLength(body, next);
    } else {
      assert s[2..] == body;
      OpenBlockLength(body);
    }
    assert s[|head|..] == next;
  }

  /** One segment in front of a text: the stripper takes exactly the segment off. */
  lemma {:induction false} StripSegment(seg: Segment, next: string)
    requires Fits(seg, next)
    ensures Strip(RenderOne(seg) + next) == (if IsComment(seg) then "" else RenderOne(seg)) + Strip(next)
  {
    match seg {
      case Plain(c) =>
        assert ([c] + next)[1..] == next;
      case Quoted(body, closed) => StripQuoted(body, closed, next);
      case LineComment(body) => StripLine(body, next);
      case BlockComment(body, closed) => StripBlock(body, closed, next);
    }
  }

  /** MAIN RESULT. Stripping a printed list of segments prints the list without its comments. */
  lemma {:induction false} StripInvertsRender(segs: seq<Segment>)
    requires WellFormed(segs)
    ensures Strip(Render(segs)) == Render(Kept(segs))
  {
    if segs != [] {
      StripSegment(segs[0], Render(segs[1..]));
      StripInvertsRender(segs[1..]);
      if IsComment(segs[0]) {
        assert Kept(segs) == Kept(segs[1..]);
      } else {
        assert Kept(segs)[0] == segs[0] && Kept(segs)[1..] == Kept(segs[1..]);
      }
    }
  }

  // ---- Every text is a printed list ----

  /** The string whose opening quote came just before `s` is closed. */
  predicate ClosedAt(s: string) {
    if s == "" then false
    else if s[0] == '\\' then |s| > 1 && ClosedAt(s[2..])
    else s[0] == '"' || ClosedAt(s[1..])
  }

  predicate BlockClosedAt(s: string) {
    s != "" && (ClosesBlock(s) || BlockClosedAt(s[1..]))
  }

  lemma {:induction false} StringLengthMeans(s: string)
    ensures ClosedAt(s) ==>
            1 <= StringLength(s) && StringBody(s[..StringLength(s) - 1])
            && s[StringLength(s) - 1] == '"'
    ensures !ClosedAt(s) ==> StringLength(s) == |s| && OpenStringBody(s)
  {
    if s != "" {
      if s[0] == '\\' {
        if |s| > 1 {
          StringLengthMeans(s[2..]);
          if ClosedAt(s) {
            var n := StringLength(s[2..]);
            assert s[..n + 1][2..] == s[2..][..n - 1];
          }
        }
      } else if s[0] != '"' {
        StringLengthMeans(s[1..]);
        if ClosedAt(s) {
          var n := StringLength(s[1..]);
          assert s[..n][1..] == s[1..][..n - 1];
        }
      }
    }
  }

  lemma {:induction false} LineLengthMeans(s: string)
    ensures '\n' !in s[..LineLength(s)]
    ensures LineLength(s) == |s| || s[LineLength(s)] == '\n'
  {
    if s != "" && s[0] != '\n' {
      LineLengthMeans(s[1..]);
      var n := LineLength(s[1..]);
      assert s[..n + 1] == [s[0]] + s[1..][..n];
    }
  }

  lemma {:induction false} BlockLengthMeans(s: string)
    ensures BlockClosedAt(s) ==> 2 <= BlockLength(s) && BlockBody(s[..BlockLength(s) - 2])
                                 && s[BlockLength(s) - 2] == '*' && s[BlockLength(s) - 1] == '/'
    ensures !BlockClosedAt(s) ==> BlockLength(s) == |s| && BlockBody(s)
  {
    if s != "" && !ClosesBlock(s) {
      BlockLengthMeans(s[1..]);
      if BlockClosedAt(s) {
        var n := BlockLength(s[1..]);
        assert s[n - 1] == s[1..][n - 2] && s[n] == s[1..][n - 1];
        BlockBodyStep(s, n - 1);
      }
    }
  }

  lemma {:induction false} BlockBodyStep(s: string, n: nat)
    requires 1 <= n <= |s| && !ClosesBlock(s) && BlockBody(s[1..][..n - 1])
    ensures BlockBody(s[..n])
  {
    assert s[..n][1..] == s[1..][..n - 1];
    if n >= 2 {
      assert s[..n][0] == s[0] && s[..n][1] == s[1];
    }
  }

  /** The segment at the start of a text. */
  function FirstSegment(s: string): Segment
    requires s != ""
  {
    if s[0] == '"' then
      StringLengthMeans(s[1..]);
      if ClosedAt(s[1..]) then Quoted(s[1..][..StringLength(s[1..]) - 1], true) else Quoted(s[1..], false)
    else if OpensLine(s) then LineComment(s[2..][..LineLength(s[2..])])
    else if OpensBlock(s) then
      BlockLengthMeans(s[2..]);
      if BlockClosedAt(s[2..]) then BlockComment(s[2..][..BlockLength(s[2..]) - 2], true)
          else BlockComment(s[2..], false)
    else Plain(s[0])
  }

  lemma {:induction false} QuotedFits(s: string)
    requires s != "" && s[0] == '"'
    ensures var seg := FirstSegment(s); RenderOne(seg) <= s && Fits(seg, s[|RenderOne(seg)|..])
  {
    hide StringLength, StringBody, OpenStringBody, ClosedAt;
    StringLengthMeans(s[1..]);
    var t := s[1..];
    if ClosedAt(t) {
      var n := StringLength(t);
      assert t == t[..n - 1] + ['"'] + t[n..];
      assert s == ['"'] + t[..n - 1] + ['"'] + t[n..];
    } else {
      assert s == ['"'] + t;
    }
  }

  lemma {:induction false} LineFits(s: string)
    requires OpensLine(s)
    ensures var seg := FirstSegment(s); RenderOne(seg) <= s && Fits(seg, s[|RenderOne(seg)|..])
  {
    var t := s[2..];
    var n := LineLength(t);
    LineLengthMeans(t);
    assert s == "//" + t[..n] + t[n..];
  }

  lemma {:induction false} BlockFits(s: string)
    requires OpensBlock(s)
    ensures var seg := FirstSegment(s); RenderOne(seg) <= s && Fits(seg, s[|RenderOne(seg)|..])
  {
    hide BlockLength, BlockBody, BlockClosedAt;
    var t := s[2..];
    BlockLengthMeans(t);
    if BlockClosedAt(t) {
      var n := BlockLength(t);
      assert t[..n] == t[..n - 2] + "*/";
      assert s[..n + 2] == "/*" + t[..n];
      var seg := FirstSegment(s);
      assert seg == BlockComment(t[..n - 2], true);
      assert RenderOne(seg) == "/*" + t[..n - 2] + "*/" == s[..n + 2];
    } else {
      assert s == "/*" + t;
    }
  }

  lemma {:induction false} FirstSegmentFits(s: string)
    requires s != ""
    ensures var seg := FirstSegment(s);
            && RenderOne(seg) <= s && RenderOne(seg) != ""
            && Fits(seg, s[|RenderOne(seg)|..])
  {
    if s[0] == '"' {
      QuotedFits(s);
    } else if OpensLine(s) {
      LineFits(s);
    } else if OpensBlock(s) {
      BlockFits(s);
    }
  }

  function Tokenize(s: string): seq<Segment>
    decreases |s|
  {
    if s == "" then []
    else
      FirstSegmentFits(s);
      [FirstSegment(s)] + Tokenize(s[|RenderOne(FirstSegment(s))|..])
  }

  /** MAIN RESULT. Every text is the print of a well-formed list, so the result above covers every text. */
  lemma {:induction false} TokenizeInvertsRender(s: string)
    ensures WellFormed(Tokenize(s)) && Render(Tokenize(s)) == s
    decreases |s|
  {
    hide FirstSegment, RenderOne, Fits;
    if s != "" {
      FirstSegmentFits(s);
      var n := |RenderOne(FirstSegment(s))|;
      TokenizeInvertsRender(s[n..]);
      var segs := Tokenize(s);
      assert segs[0] == FirstSegment(s) && segs[1..] == Tokenize(s[n..]);
      assert s == s[..n] + s[n..];
    }
  }

  // ---- Stripping twice ----

  lemma {:induction false} SegmentIsNotEmpty(seg: Segment)
    ensures RenderOne(seg) != ""
    ensures IsComment(seg) ==> RenderOne(seg)[0] == '/' && (RenderOne(seg)[1] == '/' || RenderOne(seg)[1] == '*')
  {
  }

  lemma {:induction false} KeptStart(segs: seq<Segment>)
    requires segs != [] && !IsComment(segs[0])
    ensures Kept(segs) != [] && Kept(segs)[0] == segs[0]
    ensures Render(Kept(segs)) != "" && Render(Kept(segs))[0] == RenderOne(segs[0])[0]
  {
    SegmentIsNotEmpty(segs[0]);
  }

  /** Closing the gaps the comments leave never makes a new comment and never moves a string. */
  lemma {:induction false} KeptIsWellFormed(segs: seq<Segment>)
    requires WellFormed(segs)
    ensures WellFormed(Kept(segs))
  {
    if segs != [] {
      KeptIsWellFormed(segs[1..]);
      var rest := segs[1..];
      if IsComment(segs[0]) {
        assert Kept(segs) == Kept(rest);
      } else {
        assert Kept(segs)[0] == segs[0] && Kept(segs)[1..] == Kept(rest);
        if rest != [] {
          SegmentIsNotEmpty(rest[0]);
          if !IsComment(rest[0]) {
            KeptStart(rest);
          }
          assert Render(rest)[0] == RenderOne(rest[0])[0];
        }
      }
    }
  }

  lemma {:induction false} KeptTwice(segs: seq<Segment>)
    ensures Kept(Kept(segs)) == Kept(segs)
  {
    if segs != [] {
      KeptTwice(segs[1..]);
      if !IsComment(segs[0]) {
        assert Kept(segs)[1..] == Kept(segs[1..]);
      } else {
        assert Kept(segs) == Kept(segs[1..]);
      }
    }
  }

  /** MAIN RESULT. The stripper is idempotent on every text, unterminated strings and comments included. */
  lemma StripTwice(s: string)
    ensures Strip(Strip(s)) == Strip(s)
  {
    TokenizeInvertsRender(s);
    var segs := Tokenize(s);
    StripInvertsRender(segs);
    KeptIsWellFormed(segs);
    StripInvertsRender(Kept(segs));
    KeptTwice(segs);
  }

  // ---- The scanner as it is written ----

  /** Reads past the end of the text the way indexing does: there is no character there. */
  predicate At(text: string, i: nat, c: char) {
    i < |text| && text[i] == c
  }

  function From(text: string, i: nat): string {
    if i <= |text| then text[i..] else ""
  }

  lemma {:induction false} StripStep(out: string, text: string, i: nat, j: nat, kept: string)
    requires i < |text| && i < j
    requires Strip(text[i..]) == kept + Strip(From(text, j))
    ensures out + Strip(From(text, i)) == out + kept + Strip(From(text, j))
  {
    hide Strip;
    Associates(out, kept, Strip(From(text, j)));
  }

  lemma {:induction false} Associates(a: string, b: string, c: string)
    ensures a + (b + c) == a + b + c
  {
  }

  lemma {:induction false} QuotedStep(out: string, text: string, i: nat, j: nat)
    requires i < |text| && text[i] == '"' && j == i + 1 + StringLength(text[i..][1..])
    ensures out + Strip(From(text, i)) == out + text[i..j] + Strip(From(text, j))
  {
    var s := text[i..];
    assert s[..j - i] == text[i..j] && s[j - i..] == text[j..];
    StripStep(out, text, i, j, text[i..j]);
  }

  lemma {:induction false} LineStep(out: string, text: string, i: nat, j: nat)
    requires i < |text| && OpensLine(text[i..]) && j == i + LineLength(text[i..])
    ensures i < j && out + Strip(From(text, i)) == out + Strip(From(text, j))
  {
    var s := text[i..];
    assert s[1..][1..] == s[2..];
    assert LineLength(s) == 2 + LineLength(s[2..]);
    assert s[2 + LineLength(s[2..])..] == text[j..];
    StripStep(out, text, i, j, "");
    assert out + "" == out;
  }

  lemma {:induction false} StripOpensBlock(s: string)
    requires OpensBlock(s)
    ensures Strip(s) == Strip(s[2..][BlockLength(s[2..])..])
  {
    assert s[2..][BlockLength(s[2..])..] == s[2 + BlockLength(s[2..])..];
  }

  lemma {:induction false} BlockStep(out: string, text: string, i: nat, j: nat)
    requires i < |text| && OpensBlock(text[i..])
    requires var n := i + 2 + BlockLength(text[i..][2..]); j == n || (j > |text| && n == |text|)
    ensures out + Strip(From(text, i)) == out + Strip(From(text, j))
  {
    hide BlockLength, Strip;
    var n := i + 2 + BlockLength(text[i..][2..]);
    StripOpensBlock(text[i..]);
    assert text[i..][2..] == text[i + 2..];
    assert text[i + 2..][n - i - 2..] == text[n..];
    assert From(text, j) == text[n..];
  }

  /** The three lengths, one position at a time. */
  lemma {:induction false} LengthsAt(text: string, i: nat)
    requires i < |text|
    ensures StringLength(text[i..]) ==
            if text[i] == '\\' then (if i + 1 == |text| then 1 else 2 + StringLength(text[i + 2..]))
            else if text[i] == '"' then 1 else 1 + StringLength(text[i + 1..])
    ensures LineLength(text[i..]) == if text[i] == '\n' then 0 else 1 + LineLength(text[i + 1..])
    ensures BlockLength(text[i..]) == if text[i] == '*' && At(text, i + 1, '/') then 2
            else 1 + BlockLength(text[i + 1..])
  {
    assert text[i..][1..] == text[i + 1..];
    if i + 1 < |text| {
      assert text[i..][2..] == text[i + 2..];
    }
  }

  lemma {:induction false} LengthsAtEnd(text: string)
    ensures StringLength(text[|text|..]) == LineLength(text[|text|..]) == BlockLength(text[|text|..]) == 0
  {
  }

  lemma {:induction false} PlainStep(out: string, text: string, i: nat)
    requires i < |text| && text[i] != '"' && !OpensLine(text[i..]) && !OpensBlock(text[i..])
    ensures out + Strip(From(text, i)) == out + [text[i]] + Strip(From(text, i + 1))
  {
    assert text[i..][1..] == text[i + 1..];
    StripStep(out, text, i, i + 1, [text[i]]);
  }

  lemma {:induction false} StripEnd(text: string, i: nat)
    requires i >= |text|
    ensures Strip(From(text, i)) == ""
  {
  }

  /** The loop over a string: from behind its opening quote at `start` to behind its end, or past the text. */
  method SkipString(text: string, start: nat) returns (i: nat)
    requires start < |text| && text[start] == '"'
    ensures i > start
    ensures var end := if i <= |text| then i else |text|; end == start + 1 + StringLength(text[start..][1..])
  {
    hide Strip, StringLength, LineLength, BlockLength;
    LengthsAtEnd(text);
    assert text[start..][1..] == text[start + 1..];
    i := start + 1;
    while i < |text|
      invariant start < i <= |text| + 1
      invariant StringLength(text[start + 1..]) ==
                if i <= |text| then i - start - 1 + StringLength(text[i..]) else |text| - start - 1
      decreases |text| - i
    {
      LengthsAt(text, i);
      if text[i] == '\\' {
        i := i + 2;
        continue;
      }
      if text[i] == '"' {
        i := i + 1;
        break;
      }
      i := i + 1;
    }
  }

  /** The loop over a line comment: up to the line break, or the end of the text. */
  method SkipLine(text: string, first: nat) returns (i: nat)
    requires first <= |text|
    ensures first <= i && i == first + LineLength(text[first..])
  {
    hide Strip, StringLength, LineLength, BlockLength;
    LengthsAtEnd(text);
    i := first;
    while i < |text| && text[i] != '\n'
      invariant first <= i <= |text|
      invariant LineLength(text[first..]) == i - first + LineLength(text[i..])
      decreases |text| - i
    {
      LengthsAt(text, i);
      i := i + 1;
    }
    if i < |text| {
      LengthsAt(text, i);
    }
  }

  /** The loop over a block comment: behind its end, or two past the text. */
  method SkipBlock(text: string, first: nat) returns (i: nat)
    requires first + 2 <= |text|
    ensures i >= first + 2
    ensures var n := first + 2 + BlockLength(text[first..][2..]); i == n || (i > |text| && n == |text|)
  {
    hide Strip, StringLength, LineLength, BlockLength;
    LengthsAtEnd(text);
    assert text[first..][2..] == text[first + 2..];
    i := first + 2;
    while i < |text| && !(text[i] == '*' && At(text, i + 1, '/'))
      invariant first + 2 <= i <= |text|
      invariant BlockLength(text[first + 2..]) == i - first - 2 + BlockLength(text[i..])
      decreases |text| - i
    {
      LengthsAt(text, i);
      i := i + 1;
    }
    if i < |text| {
      LengthsAt(text, i);
    }
    i := i + 2;
  }

  /** `stripJsonComments`, with its inner loops apart. */
  method StripJsonComments(text: string) returns (out: string)
    ensures out == Strip(text)
  {
    hide Strip, StringLength, LineLength, BlockLength;
    out := "";
    var i := 0;
    assert text[0..] == text;
    while i < |text|
      invariant out + Strip(From(text, i)) == Strip(text)
      decreases |text| - i
    {
      var start := i;
      Opens(text, start);
      if text[i] == '"' {
        i := SkipString(text, start);
        var end := if i <= |text| then i else |text|;
        QuotedStep(out, text, start, end);
        assert From(text, end) == From(text, i);
        out := out + text[start..end];
        continue;
      }
      if text[i] == '/' && At(text, i + 1, '/') {
        i := SkipLine(text, start);
        LineStep(out, text, start, i);
        continue;
      }
      if text[i] == '/' && At(text, i + 1, '*') {
        i := SkipBlock(text, start);
        BlockStep(out, text, start, i);
        continue;
      }
      PlainStep(out, text, i);
      out := out + [text[i]];
      i := i + 1;
    }
    StripEnd(text, i);
  }

  /** What opens at a position, in the text that begins there. */
  lemma {:induction false} Opens(text: string, i: nat)
    requires i < |text|
    ensures OpensLine(text[i..]) <==> text[i] == '/' && At(text, i + 1, '/')
    ensures OpensBlock(text[i..]) <==> text[i] == '/' && At(text, i + 1, '*')
  {
  }
}
