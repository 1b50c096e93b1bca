/** String operations of the host language that several components use. */
module Text {

  /** The characters `String.prototype.trim` and `\s` count as white space. */
  predicate IsSpace(c: char) {
    c == '\t' || c == '\n' || c == '\r' || c == ' ' || c == '\U{0B}' || c == '\U{0C}' ||
    c == '\U{A0}' || c == '\U{1680}' || '\U{2000}' <= c <= '\U{200A}' || c == '\U{2028}' || c == '\U{2029}' ||
    c == '\U{202F}' || c == '\U{205F}' || c == '\U{3000}' || c == '\U{FEFF}'
  }

  function TrimStart(s: string): (r: string)
    ensures r == "" || !IsSpace(r[0])
    ensures |r| <= |s| && r == s[|s| - |r|..]
    ensures s == "" || !IsSpace(s[0]) ==> r == s
  {
    if s == "" || !IsSpace(s[0]) then s else TrimStart(s[1..])
  }

  function TrimEnd(s: string): (r: string)
    ensures r == "" || !IsSpace(r[|r| - 1])
    ensures r <= s
    ensures s == "" || !IsSpace(s[|s| - 1]) ==> r == s
  {
    if s == "" || !IsSpace(s[|s| - 1]) then s else TrimEnd(s[..|s| - 1])
  }

  /** `trim()`. */
  function Trim(s: string): (r: string)
    ensures IsTrimmed(r)
    ensures IsTrimmed(s) ==> r == s
  {
    TrimEnd(TrimStart(s))
  }

  predicate IsTrimmed(s: string) {
    s == "" || (!IsSpace(s[0]) && !IsSpace(s[|s| - 1]))
  }

  function Replace(s: string, from: char, to: char): (r: string)
    ensures |r| == |s|
  {
    seq(|s|, i requires 0 <= i < |s| => if s[i] == from then to else s[i])
  }

  predicate EndsWith(s: string, suffix: string) {
    |suffix| <= |s| && s[|s| - |suffix|..] == suffix
  }

  /** `toLowerCase()`, on the letters A to Z. */
  function Lower(s: string): string {
    seq(|s|, i requires 0 <= i < |s| => if 'A' <= s[i] <= 'Z' then (s[i] as int + 32) as char else s[i])
  }

  // ---- What these operations mean ----

  lemma {:induction false} SpaceDecides(c: char)
    ensures IsSpace(c) <==>
            || c in "\t\n\r \U{0B}\U{0C}\U{A0}\U{1680}\U{2000}\U{2001}\U{2002}\U{2003}\U{2004}\U{2005}\U{2006}"
            || c in "\U{2007}\U{2008}\U{2009}\U{200A}\U{2028}\U{2029}\U{202F}\U{205F}\U{3000}\U{FEFF}"
  {
  }

  predicate AllSpace(s: string) {
    forall c | c in s :: IsSpace(c)
  }

  /** Trimming takes away white space at the two ends, and nothing else. */
  lemma {:induction false} TrimMeans(s: string) returns (before: string, after: string)
    ensures s == before + Trim(s) + after && AllSpace(before) && AllSpace(after)
  {
    hide IsSpace, TrimStart, TrimEnd, IsTrimmed, AllSpace;
    var rest := TrimStart(s);
    before, after := s[..|s| - |rest|], rest[|TrimEnd(rest)|..];
    StartIsSpace(s);
    EndIsSpace(rest);
    PutTogether(s, rest, TrimEnd(rest));
  }

  lemma {:induction false} PutTogether(s: string, rest: string, core: string)
    requires |rest| <= |s| && rest == s[|s| - |rest|..] && core <= rest
    ensures s == s[..|s| - |rest|] + core + rest[|core|..]
  {
    assert s == s[..|s| - |rest|] + rest;
    assert rest == core + rest[|core|..];
  }

  lemma {:induction false} StartIsSpace(s: string)
    ensures AllSpace(s[..|s| - |TrimStart(s)|])
  {
    hide IsSpace;
    if s != "" && IsSpace(s[0]) {
      StartIsSpace(s[1..]);
      assert s[..|s| - |TrimStart(s)|] == [s[0]] + s[1..][..|s[1..]| - |TrimStart(s)|];
    }
  }

  lemma {:induction false} EndIsSpace(s: string)
    ensures AllSpace(s[|TrimEnd(s)|..])
  {
    hide IsSpace;
    if s != "" && IsSpace(s[|s| - 1]) {
      var init := s[..|s| - 1];
      EndIsSpace(init);
      assert s[|TrimEnd(s)|..] == init[|TrimEnd(s)|..] + [s[|s| - 1]];
    }
  }

  /** One character is gone for another; the rest stays. */
  lemma {:induction false} ReplaceMeans(s: string, from: char, to: char)
    ensures from != to ==> from !in Replace(s, from, to)
    ensures forall i | 0 <= i < |s| && s[i] != from :: Replace(s, from, to)[i] == s[i]
    ensures forall i | 0 <= i < |s| && s[i] == from :: Replace(s, from, to)[i] == to
  {
  }

  lemma {:induction false} EndsWithMeans(s: string, suffix: string)
    ensures EndsWith(s, suffix) <==> exists before :: s == before + suffix
  {
    if EndsWith(s, suffix) {
      assert s == s[..|s| - |suffix|] + suffix;
    }
  }

  /** Capitals become small letters; nothing else changes. */
  lemma {:induction false} LowerMeans(s: string, i: nat)
    requires i < |s|
    ensures |Lower(s)| == |s|
    ensures if 'A' <= s[i] <= 'Z' then Lower(s)[i] as int - 'a' as int == s[i] as int - 'A' as int
            else Lower(s)[i] == s[i]
  {
  }
}
