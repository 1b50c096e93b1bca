/**
 * The printer of stress prompts and the parser that reads their page list back
 * (benchmarks/stress/prompts.ts:3-29, benchmarks/stress/scaffold/parsePromptPages.ts:4-23).
 */
module PromptPages {
  import opened Options
  import Text
  import SplitJoin

  const MARKER := "Pages:"

  // ---- The parser ----

  /** `indexOf`. */
  function IndexOf(s: string, marker: string): (r: Option<nat>)
    ensures r.Some? ==> r.value <= |s| && marker <= s[r.value..]
  {
    if marker <= s then Some(0)
    else if s == "" then None
    else
      match IndexOf(s[1..], marker)
      case Some(i) => Some(i + 1)
      case None => None
  }

  /** The characters `.` does not match. */
  predicate IsTerminator(c: char) {
    c == '\n' || c == '\r' || c == '\U{2028}' || c == '\U{2029}'
  }

  predicate OneLine(s: string) {
    forall c | c in s :: !IsTerminator(c)
  }

  /** The group of `/^\*\s+(.+)$/` in a trimmed line. */
  function Bullet(line: string): Option<string> {
    if |line| < 2 || line[0] != '*' || !Text.IsSpace(line[1]) then None
    else
      var group := Text.TrimStart(line[1..]);
      if group != "" && OneLine(group) then Some(group) else None
  }

  /** The titles read from the lines of the section after those in `titles`. */
  function Read(lines: seq<string>, titles: seq<string>): seq<string>
    decreases |lines|
  {
    if lines == [] then titles
    else
      var line := Text.Trim(lines[0]);
      if line == "" then if titles != [] then titles else Read(lines[1..], titles)
      else if "Features:" <= line then titles
      else
        match Bullet(line)
        case Some(group) => Read(lines[1..], titles + [Text.Trim(group)])
        case None => Read(lines[1..], titles)
  }

  function Parse(prompt: string): seq<string> {
    match IndexOf(prompt, MARKER)
    case None => []
    case Some(start) => Read(SplitJoin.Split(prompt[start + |MARKER|..], '\n'), [])
  }

  /** `parseListedPages`. */
  method ParseListedPages(prompt: string) returns (titles: seq<string>)
    ensures titles == Parse(prompt)
  {
    hide Bullet, Text.Trim, IndexOf;
    titles := [];
    var start := IndexOf(prompt, MARKER);
    if start.None? {
      return;
    }
    var lines := SplitJoin.Split(prompt[start.value + |MARKER|..], '\n');
    for i := 0 to |lines|
      invariant Read(lines, []) == Read(lines[i..], titles)
    {
      assert lines[i..][0] == lines[i] && lines[i..][1..] == lines[i + 1..];
      var line := Text.Trim(lines[i]);
      if line == "" {
        if titles != [] {
          return;
        }
        continue;
      }
      if "Features:" <= line {
        return;
      }
      var bullet := Bullet(line);
      if bullet.Some? {
        titles := titles + [Text.Trim(bullet.value)];
      }
    }
    assert lines[|lines|..] == [];
  }

  /** A title the parser can return: trimmed, not empty and on one line. */
  predicate Clean(title: string) {
    title != "" && Text.IsTrimmed(title) && OneLine(title)
  }

  predicate AllClean(titles: seq<string>) {
    forall t | t in titles :: Clean(t)
  }

  /** Whatever the text, the parser returns clean titles. */
  lemma {:induction false} ReadIsClean(lines: seq<string>, titles: seq<string>)
    requires AllClean(titles)
    ensures AllClean(Read(lines, titles))
    decreases |lines|
  {
    hide Clean, Bullet, Text.Trim, Text.IsTrimmed;
    if lines != [] {
      var line := Text.Trim(lines[0]);
      if Bullet(line).Some? {
        BulletIsClean(line);
        ReadIsClean(lines[1..], titles + [Text.Trim(Bullet(line).value)]);
      }
      ReadIsClean(lines[1..], titles);
    }
  }

  lemma {:induction false} BulletIsClean(line: string)
    requires Text.IsTrimmed(line) && Bullet(line).Some?
    ensures Clean(Bullet(line).value) && Text.Trim(Bullet(line).value) == Bullet(line).value
  {
    hide Text.Trim;
    var group := Bullet(line).value;
    assert group == line[|line| - |group|..] by {
      assert group == line[1..][|line| - 1 - |group|..];
    }
    assert group[|group| - 1] == line[|line| - 1];
  }

  // ---- Where the parser stops ----

  /** A star, white space, and one line of text that starts with none. */
  ghost predicate Listed(line: string, title: string) {
    && title != "" && !Text.IsSpace(title[0])
    && (forall c | c in title :: c !in {'\n', '\r', '\U{2028}', '\U{2029}'})
    && exists spaces :: spaces != "" && Text.AllSpace(spaces) && line == "*" + (spaces + title)
  }

  lemma {:induction false} OneLineMeans(title: string)
    ensures OneLine(title) <==> forall c | c in title :: c !in {'\n', '\r', '\U{2028}', '\U{2029}'}
  {
    if OneLine(title) {
      forall c | c in title
        ensures c !in {'\n', '\r', '\U{2028}', '\U{2029}'}
      {
        assert !IsTerminator(c);
      }
    }
  }

  lemma {:induction false} BulletIsListed(line: string)
    requires Bullet(line).Some?
    ensures Listed(line, Bullet(line).value)
  {
    hide Text.IsSpace, Text.AllSpace, OneLine, Text.TrimStart;
    var title, rest := Bullet(line).value, line[1..];
    OneLineMeans(title);
    var spaces := rest[..|rest| - |title|];
    Text.StartIsSpace(rest);
    assert title == rest[|rest| - |title|..];
    assert spaces + title == rest;
    assert line == "*" + rest;
    assert spaces != "" by {
      assert rest[0] == line[1];
    }
  }

  lemma {:induction false} ListedIsBullet(line: string, title: string)
    requires Listed(line, title)
    ensures Bullet(line) == Some(title)
  {
    hide Text.IsSpace, OneLine;
    OneLineMeans(title);
    var spaces :| spaces != "" && Text.AllSpace(spaces) && line == "*" + (spaces + title);
    assert line[1..] == spaces + title && line[1] == spaces[0];
    StartGoes(spaces, title);
  }

  /** The title of a bullet line. */
  lemma {:induction false} BulletDecides(line: string, title: string)
    ensures Bullet(line) == Some(title) <==> Listed(line, title)
  {
    hide Bullet, Listed;
    if Bullet(line) == Some(title) {
      BulletIsListed(line);
    }
    if Listed(line, title) {
      ListedIsBullet(line, title);
    }
  }

  lemma {:induction false} StartGoes(spaces: string, title: string)
    requires Text.AllSpace(spaces) && title != "" && !Text.IsSpace(title[0])
    ensures Text.TrimStart(spaces + title) == title
  {
    hide Text.IsSpace;
    if spaces == "" {
      assert spaces + title == title;
    } else {
      assert spaces[0] in spaces && forall c | c in spaces[1..] :: c in spaces;
      assert (spaces + title)[1..] == spaces[1..] + title;
      StartGoes(spaces[1..], title);
    }
  }

  /** The titles of all bullet lines, wherever they are. */
  function AllTitles(lines: seq<string>): seq<string> {
    if lines == [] then []
    else
      AllTitles(lines[..|lines| - 1]) +
      match Bullet(Text.Trim(lines[|lines| - 1]))
      case Some(title) => [title]
      case None => []
  }

  /** The page list ends at line `k`: a heading for features, or a blank line behind a title. */
  predicate EndsAt(lines: seq<string>, k: nat)
    requires k < |lines|
  {
    var line := Text.Trim(lines[k]);
    "Features:" <= line || (line == "" && AllTitles(lines[..k]) != [])
  }

  /** The parser returns the titles of the bullet lines up to the first end of the list. */
  lemma {:induction false} ReadDecides(lines: seq<string>, k: nat)
    requires k <= |lines| && (k < |lines| ==> EndsAt(lines, k)) && forall i: nat | i < k :: !EndsAt(lines, i)
    ensures Read(lines, []) == AllTitles(lines[..k])
  {
    ReadFrom(lines, 0, k);
    assert lines[0..] == lines;
  }

  lemma {:induction false} ReadFrom(lines: seq<string>, i: nat, k: nat)
    requires i <= k <= |lines| && (k < |lines| ==> EndsAt(lines, k)) && forall j: nat | j < k :: !EndsAt(lines, j)
    ensures Read(lines[i..], AllTitles(lines[..i])) == AllTitles(lines[..k])
    decreases k - i
  {
    hide Bullet, Text.Trim;
    if i < |lines| {
      assert lines[i..][0] == lines[i] && lines[i..][1..] == lines[i + 1..];
      if i < k {
        assert !EndsAt(lines, i);
        assert lines[..i + 1] == lines[..i] + [lines[i]];
        TitlesSnoc(lines[..i], lines[i]);
        TitleIsTrimmed(lines[i]);
        ReadFrom(lines, i + 1, k);
      } else {
        TitleIsTrimmed(lines[i]);
      }
    } else {
      assert lines[i..] == [];
    }
  }

  lemma {:induction false} TitlesSnoc(lines: seq<string>, line: string)
    ensures AllTitles(lines + [line]) ==
            match Bullet(Text.Trim(line))
            case Some(title) => AllTitles(lines) + [title]
            case None => AllTitles(lines)
  {
    hide Bullet, Text.Trim;
    assert (lines + [line])[..|lines|] == lines;
  }

  lemma {:induction false} TitleIsTrimmed(line: string)
    ensures Bullet(Text.Trim(line)).Some? ==>
              Text.Trim(Bullet(Text.Trim(line)).value) == Bullet(Text.Trim(line)).value
    ensures Bullet("").None?
  {
    if Bullet(Text.Trim(line)).Some? {
      BulletIsClean(Text.Trim(line));
    }
  }

  // ---- The printer ----

  /** The lines of a bullet list. */
  function Bullets(items: seq<string>): seq<string> {
    seq(|items|, i requires 0 <= i < |items| => "* " + items[i])
  }

  /** The prompt up to the line of the page marker. */
  function Header(appName: string, tagline: string, features: seq<string>): string {
    "Build " + appName + " \U{2014} " + tagline + "\n\nFeatures:\n" + SplitJoin.Join(Bullets(features), '\n') + "\n\n"
  }

  /** `saasPrompt`. */
  function SaasPrompt(appName: string, tagline: string, pages: seq<string>, features: seq<string>): string {
    Text.Trim("\n" + (Header(appName, tagline, features) + (MARKER + ("\n" + SplitJoin.Join(Bullets(pages), '\n')))) +
              "\n")
  }

  /** No marker starts anywhere in the text. */
  predicate Markerless(s: string) {
    forall i | 0 <= i <= |s| :: !(MARKER <= s[i..])
  }

  // ---- Finding the marker ----

  lemma {:induction false} StartsWithin(a: string, c: char, b: string)
    requires c !in MARKER
    ensures MARKER <= a + [c] + b <==> MARKER <= a
  {
    var s := a + [c] + b;
    if |MARKER| <= |a| {
      assert s[..|MARKER|] == a[..|MARKER|];
    } else {
      assert s[|a|] == c && MARKER[|a|] in MARKER;
    }
  }

  lemma {:induction false} MarkerlessSum(a: string, c: char, b: string)
    requires Markerless(a) && Markerless(b) && c !in MARKER
    ensures Markerless(a + [c] + b)
  {
    var s := a + [c] + b;
    forall i | 0 <= i <= |s|
      ensures !(MARKER <= s[i..])
    {
      if i > |a| {
        assert s[i..] == b[i - |a| - 1..];
      } else {
        assert s[i..] == a[i..] + [c] + b;
        StartsWithin(a[i..], c, b);
      }
    }
  }

  lemma {:induction false} TailIsMarkerless(a: string)
    requires Markerless(a) && a != ""
    ensures Markerless(a[1..])
  {
    forall i | 0 <= i <= |a[1..]|
      ensures !(MARKER <= a[1..][i..])
    {
      assert a[1..][i..] == a[i + 1..];
    }
  }

  lemma {:induction false} NoMarkerHere(a: string)
    requires Markerless(a)
    ensures !(MARKER <= a)
  {
    assert a[0..] == a;
  }

  lemma {:induction false} MarkerAfter(a: string, c: char, b: string)
    requires Markerless(a) && c !in MARKER && MARKER <= b
    ensures IndexOf(a + [c] + b, MARKER) == Some(|a| + 1)
  {
    hide Markerless;
    var s := a + [c] + b;
    StartsWithin(a, c, b);
    NoMarkerHere(a);
    if a == "" {
      assert s[1..] == b;
    } else {
      assert s[1..] == a[1..] + [c] + b;
      TailIsMarkerless(a);
      MarkerAfter(a[1..], c, b);
    }
  }

  lemma {:induction false} WordIsMarkerless(s: string)
    requires |s| < |MARKER| || s == "Features:"
    ensures Markerless(s)
  {
    forall i | 0 <= i <= |s|
      ensures !(MARKER <= s[i..])
    {
      if |s| >= |MARKER| && i + |MARKER| <= |s| {
        assert s[i..][0] == s[i];
      }
    }
  }

  lemma {:induction false} BulletsAreMarkerless(items: seq<string>)
    requires forall s | s in items :: Markerless(s)
    ensures Markerless(SplitJoin.Join(Bullets(items), '\n'))
  {
    hide Markerless;
    WordIsMarkerless("*");
    WordIsMarkerless("");
    if items != [] {
      assert items[0] in items;
      MarkerlessSum("*", ' ', items[0]);
      assert "*" + [' '] + items[0] == "* " + items[0];
      if |items| > 1 {
        assert forall s | s in items[1..] :: s in items;
        BulletsAreMarkerless(items[1..]);
        assert Bullets(items)[1..] == Bullets(items[1..]);
        MarkerlessSum("* " + items[0], '\n', SplitJoin.Join(Bullets(items[1..]), '\n'));
      }
    }
  }

  function Glue(a: string, c: char, b: string): string {
    a + [c] + b
  }

  lemma {:induction false} GlueIsMarkerless(a: string, c: char, b: string)
    requires Markerless(a) && Markerless(b) && c in {' ', '\n'}
    ensures Markerless(Glue(a, c, b))
  {
    hide Markerless;
    MarkerlessSum(a, c, b);
  }

  function Opening(appName: string, tagline: string): string {
    Glue(Glue(Glue("Build", ' ', appName), ' ', "\U{2014}"), ' ', tagline)
  }

  function Listing(opening: string, list: string): string {
    Glue(Glue(Glue(Glue(opening, '\n', ""), '\n', "Features:"), '\n', list), '\n', "")
  }

  lemma {:induction false} OpeningText(appName: string, tagline: string)
    ensures Opening(appName, tagline) == "Build " + appName + " \U{2014} " + tagline
  {
    assert Glue("Build", ' ', appName) == "Build " + appName;
    var a := "Build " + appName;
    assert Glue(a, ' ', "\U{2014}") + [' '] == a + " \U{2014} ";
  }

  lemma {:induction false} ListingText(opening: string, list: string)
    ensures Listing(opening, list) + ['\n'] == opening + "\n\nFeatures:\n" + list + "\n\n"
  {
    var a := Glue(Glue(opening, '\n', ""), '\n', "Features:");
    assert a + ['\n'] == opening + "\n\nFeatures:\n";
    var b := Glue(a, '\n', list);
    assert b + ['\n'] + "" + ['\n'] == b + "\n\n";
  }

  lemma {:induction false} OpeningIsMarkerless(appName: string, tagline: string)
    requires Markerless(appName) && Markerless(tagline)
    ensures Markerless(Opening(appName, tagline))
  {
    hide Markerless, Glue;
    WordIsMarkerless("Build");
    WordIsMarkerless("\U{2014}");
    GlueIsMarkerless("Build", ' ', appName);
    GlueIsMarkerless(Glue("Build", ' ', appName), ' ', "\U{2014}");
    GlueIsMarkerless(Glue(Glue("Build", ' ', appName), ' ', "\U{2014}"), ' ', tagline);
  }

  lemma {:induction false} ListingIsMarkerless(opening: string, list: string)
    requires Markerless(opening) && Markerless(list)
    ensures Markerless(Listing(opening, list))
  {
    hide Markerless, Glue;
    WordIsMarkerless("");
    WordIsMarkerless("Features:");
    var a := Glue(opening, '\n', "");
    GlueIsMarkerless(opening, '\n', "");
    GlueIsMarkerless(a, '\n', "Features:");
    var b := Glue(a, '\n', "Features:");
    GlueIsMarkerless(b, '\n', list);
    GlueIsMarkerless(Glue(b, '\n', list), '\n', "");
  }

  /** Everything before the marker's own line break is free of the marker. */
  lemma {:induction false} HeaderIsMarkerless(appName: string, tagline: string, features: seq<string>)
    requires Markerless(appName) && Markerless(tagline) && forall s | s in features :: Markerless(s)
    ensures exists a :: Markerless(a) && Header(appName, tagline, features) == a + ['\n']
  {
    hide Markerless, Bullets, SplitJoin.Join, Opening, Listing;
    var opening, list := Opening(appName, tagline), SplitJoin.Join(Bullets(features), '\n');
    BulletsAreMarkerless(features);
    OpeningIsMarkerless(appName, tagline);
    ListingIsMarkerless(opening, list);
    OpeningText(appName, tagline);
    ListingText(opening, list);
    assert Header(appName, tagline, features) == Listing(opening, list) + ['\n'];
  }

  // ---- The text around ----

  lemma {:induction false} TrimStartOf(pre: string, s: string)
    requires (forall c | c in pre :: Text.IsSpace(c)) && s != "" && !Text.IsSpace(s[0])
    ensures Text.TrimStart(pre + s) == s
  {
    if pre == "" {
      assert pre + s == s;
    } else {
      assert pre[0] in pre && (pre + s)[1..] == pre[1..] + s;
      TrimStartOf(pre[1..], s);
    }
  }

  lemma {:induction false} TrimEndOf(s: string, post: string)
    requires (forall c | c in post :: Text.IsSpace(c)) && s != "" && !Text.IsSpace(s[|s| - 1])
    ensures Text.TrimEnd(s + post) == s
  {
    if post == "" {
      assert s + post == s;
    } else {
      var t := s + post;
      assert t[|t| - 1] == post[|post| - 1] && post[|post| - 1] in post;
      assert t[..|t| - 1] == s + post[..|post| - 1];
      TrimEndOf(s, post[..|post| - 1]);
    }
  }

  /** White space around a text that has none at its ends goes. */
  lemma {:induction false} TrimCore(core: string, post: string)
    requires core != "" && !Text.IsSpace(core[0]) && !Text.IsSpace(core[|core| - 1])
    requires forall c | c in post :: Text.IsSpace(c)
    ensures Text.Trim("\n" + (core + post)) == core
  {
    hide Text.TrimStart, Text.TrimEnd;
    TrimStartOf("\n", core + post);
    TrimEndOf(core, post);
  }

  lemma {:induction false} HeaderStarts(appName: string, tagline: string, features: seq<string>)
    ensures var header := Header(appName, tagline, features); header != "" && header[0] == 'B'
  {
    hide SplitJoin.Join;
    assert "Build "[0] == 'B';
  }

  lemma {:induction false} EndOfSum(a: string, b: string)
    requires b != ""
    ensures (a + b)[|a + b| - 1] == b[|b| - 1]
  {
  }

  /** The printed text, with its page list put apart. */
  lemma {:induction false} Around(header: string, list: string)
    ensures "\n" + (header + (MARKER + ("\n" + list))) + "\n" == "\n" + ((header + (MARKER + ("\n" + list))) + "\n")
    ensures "\n" + (header + (MARKER + ("\n" + ""))) + "\n" == "\n" + ((header + (MARKER + "")) + "\n\n")
  {
    assert header + (MARKER + ("\n" + "")) + "\n" == header + (MARKER + "") + "\n\n";
  }

  /** The prompt with the outer white space gone. */
  lemma {:induction false} PromptText(appName: string, tagline: string, pages: seq<string>, features: seq<string>)
    requires AllClean(pages)
    ensures SaasPrompt(appName, tagline, pages, features) ==
            Header(appName, tagline, features) +
            (MARKER + if pages == [] then "" else "\n" + SplitJoin.Join(Bullets(pages), '\n'))
  {
    hide SplitJoin.Join, Text.Trim, AllClean, Header, Bullets, Text.IsSpace;
    var header, list := Header(appName, tagline, features), SplitJoin.Join(Bullets(pages), '\n');
    var section := if pages == [] then "" else "\n" + list;
    var core := header + (MARKER + section);
    HeaderStarts(appName, tagline, features);
    Around(header, list);
    NoSpaces();
    if pages == [] {
      NoBullets();
      EndOfSum(header, MARKER + "");
      TrimCore(core, "\n\n");
    } else {
      JoinEnds(pages);
      EndOfSum("\n", list);
      EndOfSum(MARKER, section);
      EndOfSum(header, MARKER + section);
      TrimCore(core, "\n");
    }
  }

  lemma {:induction false} NoSpaces()
    ensures !Text.IsSpace('B') && !Text.IsSpace(':') && Text.IsSpace('\n')
    ensures MARKER + "" == MARKER && MARKER[|MARKER| - 1] == ':'
  {
  }

  lemma {:induction false} NoBullets()
    ensures SplitJoin.Join(Bullets([]), '\n') == ""
  {
  }

  lemma {:induction false} JoinEnds(pages: seq<string>)
    requires pages != [] && AllClean(pages)
    ensures var list := SplitJoin.Join(Bullets(pages), '\n'); list != "" && !Text.IsSpace(list[|list| - 1])
  {
    hide Text.IsSpace;
    assert pages[0] in pages;
    if |pages| > 1 {
      assert Bullets(pages)[1..] == Bullets(pages[1..]);
      assert forall t | t in pages[1..] :: t in pages;
      JoinEnds(pages[1..]);
    }
  }

  // ---- Reading the bullets back ----

  lemma {:induction false} BulletLine(title: string)
    requires Clean(title)
    ensures var line := "* " + title;
            && Text.IsTrimmed(line) && '\n' !in line && |line| >= 2 && line[0] == '*' && line[1..] == " " + title
  {
    hide Text.IsSpace;
    var line := "* " + title;
    assert line[|line| - 1] == title[|title| - 1];
    assert !Text.IsSpace('*') by {
      StarIsNoSpace();
    }
    forall c | c in title
      ensures c != '\n'
    {
      assert !IsTerminator(c);
    }
  }

  lemma {:induction false} StarIsNoSpace()
    ensures !Text.IsSpace('*') && Text.IsSpace(' ')
  {
  }

  lemma {:induction false} BulletBack(title: string)
    requires Clean(title)
    ensures Text.Trim("* " + title) == "* " + title && Bullet("* " + title) == Some(title) && Text.Trim(title) == title
    ensures '\n' !in "* " + title
  {
    hide Text.Trim, Text.TrimStart, Text.IsSpace;
    BulletLine(title);
    StarIsNoSpace();
    assert ("* " + title)[1] == ' ';
    TrimStartOf(" ", title);
  }

  lemma {:induction false} ReadBack(pages: seq<string>, titles: seq<string>)
    requires AllClean(pages)
    ensures Read(Bullets(pages), titles) == titles + pages
    decreases |pages|
  {
    hide Clean, Bullet, Text.Trim;
    if pages != [] {
      assert pages[0] in pages && forall t | t in pages[1..] :: t in pages;
      BulletBack(pages[0]);
      assert Bullets(pages)[1..] == Bullets(pages[1..]);
      ReadBack(pages[1..], titles + [pages[0]]);
      assert titles + [pages[0]] + pages[1..] == titles + pages;
    }
  }

  /**
   * MAIN RESULT. For an application name, a tagline and features free of the marker, parsing the printed
   * prompt returns the page list, in order, if and only if every title is trimmed, not empty and on one
   * line.
   */
  lemma {:induction false} ParseInvertsPrintExactly(appName: string, tagline: string, pages: seq<string>,
                                                    features: seq<string>)
    requires Markerless(appName) && Markerless(tagline) && forall s | s in features :: Markerless(s)
    ensures Parse(SaasPrompt(appName, tagline, pages, features)) == pages <==> AllClean(pages)
  {
    hide Markerless, Header, Bullets, Read, SaasPrompt, Clean, SplitJoin.Join, SplitJoin.Split;
    hide IndexOf, AllClean, Parse;
    var prompt := SaasPrompt(appName, tagline, pages, features);
    ParseIsClean(prompt);
    if AllClean(pages) {
      PromptText(appName, tagline, pages, features);
      HeaderIsMarkerless(appName, tagline, features);
      var a :| Markerless(a) && Header(appName, tagline, features) == a + ['\n'];
      var section := if pages == [] then "" else "\n" + SplitJoin.Join(Bullets(pages), '\n');
      MarkerAfter(a, '\n', MARKER + section);
      ParseAt(a + ['\n'], section);
      SectionBack(pages, section);
    }
  }

  lemma {:induction false} ParseIsClean(prompt: string)
    ensures AllClean(Parse(prompt))
  {
    hide IndexOf, Clean, SplitJoin.Split, Read;
    var start := IndexOf(prompt, MARKER);
    if start.Some? {
      ReadIsClean(SplitJoin.Split(prompt[start.value + |MARKER|..], '\n'), []);
    }
  }

  lemma {:induction false} ParseAt(before: string, section: string)
    requires IndexOf(before + (MARKER + section), MARKER) == Some(|before|)
    ensures Parse(before + (MARKER + section)) == Read(SplitJoin.Split(section, '\n'), [])
  {
    hide IndexOf, SplitJoin.Split, Read;
    assert (before + (MARKER + section))[|before| + |MARKER|..] == section;
  }

  lemma {:induction false} SectionBack(pages: seq<string>, section: string)
    requires AllClean(pages) && section == if pages == [] then "" else "\n" + SplitJoin.Join(Bullets(pages), '\n')
    ensures Read(SplitJoin.Split(section, '\n'), []) == pages
  {
    hide Clean, Bullet, SplitJoin.Join;
    assert Text.Trim("") == "";
    if pages == [] {
      assert SplitJoin.Split("", '\n') == [""];
    } else {
      var list := SplitJoin.Join(Bullets(pages), '\n');
      assert section == "" + ['\n'] + list;
      SplitJoin.SplitSum("", '\n', list);
      forall i | 0 <= i < |pages|
        ensures '\n' !in Bullets(pages)[i]
      {
        assert pages[i] in pages;
        BulletBack(pages[i]);
      }
      SplitJoin.SplitOfJoin(Bullets(pages), '\n');
      ReadBack(pages, []);
      assert ([""] + Bullets(pages))[1..] == Bullets(pages);
    }
  }
}
