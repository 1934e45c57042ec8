/** The logic of the canvas renderer (src/utils/canvasRenderer.ts): greedy word
    wrapping, social-handle extraction, the font fallback and the choice of
    side. Text measurement is a parameter `measure` standing for the canvas
    font metrics. */
module CanvasRenderer {
  import opened Types
  import opened Text
  import opened PrintSizes

  // ------------------------------------------------------------ splitting

  predicate NoSpace(w: string) {
    ' ' !in w
  }

  /** `text.split(' ')`: the pieces between single spaces, empty ones included. */
  function Split(s: string): (words: seq<string>)
    ensures |words| >= 1
    ensures forall i :: 0 <= i < |words| ==> NoSpace(words[i])
  {
    if s == [] then [""]
    else if s[0] == ' ' then [""] + Split(s[1..])
    else
      var r := Split(s[1..]);
      assert NoSpace(r[0]);
      [[s[0]] + r[0]] + r[1..]
  }

  /** `lines.join(' ')`. */
  function Join(words: seq<string>): string
  {
    if words == [] then ""
    else if |words| == 1 then words[0]
    else words[0] + " " + Join(words[1..])
  }

  /** Joining the pieces of a split with single spaces gives the text back. */
  lemma {:induction false} SplitJoin(s: string)
    ensures Join(Split(s)) == s
  {
    if s == [] {
    } else if s[0] == ' ' {
      SplitJoin(s[1..]);
      assert Split(s) == [""] + Split(s[1..]);
    } else {
      SplitJoin(s[1..]);
      var r := Split(s[1..]);
      if |r| == 1 {
        assert Split(s) == [[s[0]] + r[0]];
      } else {
        assert Split(s) == [[s[0]] + r[0]] + r[1..];
        assert Split(s)[1..] == r[1..];
        assert Join(r) == r[0] + " " + Join(r[1..]);
      }
    }
  }

  lemma JoinSnoc(words: seq<string>, w: string)
    requires words != []
    ensures Join(words + [w]) == Join(words) + " " + w
    decreases |words|
  {
    if |words| == 1 {
      assert words + [w] == [words[0], w];
    } else {
      assert (words + [w])[1..] == words[1..] + [w];
      JoinSnoc(words[1..], w);
    }
  }

  /** A text that does not begin or end with a space and has no two spaces in a
      row. */
  predicate SingleSpaced(s: string) {
    s != [] && s[0] != ' ' && s[|s| - 1] != ' ' &&
    forall i :: 0 <= i < |s| - 1 ==> !(s[i] == ' ' && s[i + 1] == ' ')
  }

  predicate NoEmptyWord(words: seq<string>) {
    forall i :: 0 <= i < |words| ==> words[i] != ""
  }

  /** Only leading, trailing or doubled spaces make empty pieces. */
  lemma {:induction false} SplitSingleSpaced(s: string)
    requires SingleSpaced(s)
    ensures NoEmptyWord(Split(s))
    decreases |s|
  {
    if |s| > 1 {
      var r := Split(s[1..]);
      if s[1] != ' ' {
        SplitSingleSpaced(s[1..]);
      } else {
        var t := s[2..];
        assert s[2..] == s[1..][1..];
        assert r == [""] + Split(t);
        assert SingleSpaced(t) by {
          assert |s| > 2;
          forall i | 0 <= i < |t| - 1 ensures !(t[i] == ' ' && t[i + 1] == ' ') {
            assert t[i] == s[i + 2] && t[i + 1] == s[i + 3];
          }
        }
        SplitSingleSpaced(t);
      }
      assert Split(s) == [[s[0]] + r[0]] + r[1..];
    }
  }

  // ------------------------------------------------------------ wrapping

  /** The loop state of `wrapTextToLines`: the lines pushed so far, the line
      being built, and for each pushed line the word that did not fit after it. */
  datatype WrapState = WrapState(lines: seq<string>, current: string, breaks: seq<string>)

  /** One iteration of the loop over the words. */
  function WrapStep(measure: string -> real, maxWidth: real, st: WrapState, word: string): (next: WrapState)
  {
    var testLine := if st.current != "" then st.current + " " + word else word;
    if measure(testLine) > maxWidth && st.current != "" then
      WrapState(st.lines + [st.current], word, st.breaks + [word])
    else
      st.(current := testLine)
  }

  /** The loop state after the given words. */
  function WrapPrefix(measure: string -> real, maxWidth: real, words: seq<string>): (st: WrapState)
    decreases |words|
  {
    if words == [] then WrapState([], "", [])
    else WrapStep(measure, maxWidth, WrapPrefix(measure, maxWidth, words[..|words| - 1]), words[|words| - 1])
  }

  /** The last line is pushed when it is not empty. */
  function Finish(st: WrapState): (lines: seq<string>)
    ensures lines == st.lines || lines == st.lines + [st.current]
  {
    if st.current != "" then st.lines + [st.current] else st.lines
  }

  function WrapLines(measure: string -> real, maxWidth: real, words: seq<string>): seq<string> {
    Finish(WrapPrefix(measure, maxWidth, words))
  }

  /** `wrapTextToLines`. */
  method WrapTextToLines(measure: string -> real, text: string, maxWidth: real) returns (lines: seq<string>)
    ensures lines == WrapLines(measure, maxWidth, Split(text))
  {
    var words := Split(text);
    lines := [];
    var currentLine := "";
    ghost var breaks: seq<string> := [];
    for i := 0 to |words|
      invariant WrapState(lines, currentLine, breaks) == WrapPrefix(measure, maxWidth, words[..i])
    {
      var word := words[i];
      var testLine := if currentLine != "" then currentLine + " " + word else word;
      if measure(testLine) > maxWidth && currentLine != "" {
        lines := lines + [currentLine];
        currentLine := word;
        breaks := breaks + [word];
      } else {
        currentLine := testLine;
      }
      assert words[..i + 1][..i] == words[..i];
    }
    assert words[..|words|] == words;
    if currentLine != "" {
      lines := lines + [currentLine];
    }
  }

  /** What every loop state satisfies: no pushed line is empty; a line with a
      space in it fits; the word recorded for each pushed line did not fit
      after it and is one of the words; there are no more lines than words. */
  predicate WrapInvariant(measure: string -> real, maxWidth: real, words: seq<string>, st: WrapState) {
    (forall i :: 0 <= i < |st.lines| ==> st.lines[i] != "") &&
    (forall i :: 0 <= i < |st.lines| ==> ' ' in st.lines[i] ==> measure(st.lines[i]) <= maxWidth) &&
    (' ' in st.current ==> measure(st.current) <= maxWidth) &&
    |st.breaks| == |st.lines| &&
    (forall i :: 0 <= i < |st.breaks| ==> measure(st.lines[i] + " " + st.breaks[i]) > maxWidth && st.breaks[i] in words) &&
    |st.lines| + (if st.current != "" then 1 else 0) <= |words|
  }

  lemma WrapStepKeeps(measure: string -> real, maxWidth: real, words: seq<string>, st: WrapState, word: string)
    requires WrapInvariant(measure, maxWidth, words, st) && NoSpace(word)
    ensures WrapInvariant(measure, maxWidth, words + [word], WrapStep(measure, maxWidth, st, word))
  {
    var next := WrapStep(measure, maxWidth, st, word);
    var ws := words + [word];
    assert word in ws;
    forall i | 0 <= i < |st.breaks| ensures st.breaks[i] in ws {
      assert st.breaks[i] in words;
    }
  }

  lemma {:induction false} WrapPrefixInvariant(measure: string -> real, maxWidth: real, words: seq<string>)
    requires forall i :: 0 <= i < |words| ==> NoSpace(words[i])
    ensures WrapInvariant(measure, maxWidth, words, WrapPrefix(measure, maxWidth, words))
    decreases |words|
  {
    if words != [] {
      var init := words[..|words| - 1];
      WrapPrefixInvariant(measure, maxWidth, init);
      WrapStepKeeps(measure, maxWidth, init, WrapPrefix(measure, maxWidth, init), words[|words| - 1]);
      assert init + [words[|words| - 1]] == words;
    }
  }

  /** `line` is the word `w`, or starts with `w` and a space. */
  predicate BeginsWithWord(line: string, w: string) {
    line == w || StartsWith(line, w + " ")
  }

  lemma BeginsWithWordExtend(line: string, w: string, next: string)
    requires BeginsWithWord(line, w)
    ensures BeginsWithWord(line + " " + next, w)
  {
    var t := line + " " + next;
    if line == w {
      assert t[..|w + " "|] == w + " ";
    } else {
      assert t[..|w + " "|] == line[..|w + " "|];
    }
  }

  /** The line that follows the i-th pushed line: the next pushed one, or the
      line still being built. */
  function NextLine(st: WrapState, i: nat): string {
    if i + 1 < |st.lines| then st.lines[i + 1] else st.current
  }

  /** The line after each pushed line begins with the word recorded for it
      (the word that did not fit), unless that word is empty; the line being
      built is empty only when the last recorded word was. */
  predicate NextWordInvariant(st: WrapState) {
    |st.breaks| == |st.lines| &&
    (forall i :: 0 <= i < |st.breaks| && st.breaks[i] != "" ==> BeginsWithWord(NextLine(st, i), st.breaks[i])) &&
    (|st.breaks| > 0 && st.breaks[|st.breaks| - 1] != "" ==> st.current != "")
  }

  lemma NextWordStep(measure: string -> real, maxWidth: real, st: WrapState, word: string)
    requires NextWordInvariant(st)
    ensures NextWordInvariant(WrapStep(measure, maxWidth, st, word))
  {
    var next := WrapStep(measure, maxWidth, st, word);
    if next.lines == st.lines + [st.current] {
      forall i | 0 <= i < |next.breaks| && next.breaks[i] != ""
        ensures BeginsWithWord(NextLine(next, i), next.breaks[i])
      {
        if i < |st.breaks| {
          assert NextLine(next, i) == NextLine(st, i);
        } else {
          assert NextLine(next, i) == word == next.breaks[i];
        }
      }
    } else {
      assert next.lines == st.lines && next.breaks == st.breaks;
      var n := |st.breaks|;
      if st.current != "" && n > 0 && st.breaks[n - 1] != "" {
        BeginsWithWordExtend(st.current, st.breaks[n - 1], word);
      }
      forall i | 0 <= i < |next.breaks| && next.breaks[i] != ""
        ensures BeginsWithWord(NextLine(next, i), next.breaks[i])
      {
        if i + 1 < |st.lines| {
          assert NextLine(next, i) == NextLine(st, i);
        }
      }
    }
  }

  lemma {:induction false} NextWordPrefix(measure: string -> real, maxWidth: real, words: seq<string>)
    ensures NextWordInvariant(WrapPrefix(measure, maxWidth, words))
    decreases |words|
  {
    if words != [] {
      var init := words[..|words| - 1];
      NextWordPrefix(measure, maxWidth, init);
      NextWordStep(measure, maxWidth, WrapPrefix(measure, maxWidth, init), words[|words| - 1]);
    }
  }

  /** No emitted line is empty; a line of more than one word fits `maxWidth`
      (only a single over-long word can exceed it); and there are no more lines
      than words. */
  lemma WrapLinesShape(measure: string -> real, maxWidth: real, text: string)
    ensures forall l :: l in WrapLines(measure, maxWidth, Split(text)) ==> l != ""
    ensures forall l :: l in WrapLines(measure, maxWidth, Split(text)) && ' ' in l ==> measure(l) <= maxWidth
    ensures |WrapLines(measure, maxWidth, Split(text))| <= |Split(text)|
  {
    WrapPrefixInvariant(measure, maxWidth, Split(text));
  }

  /** Greedy closure: every line but possibly the last was pushed because the
      next word did not fit after it, and the following line begins with that
      word. */
  lemma WrapLinesGreedy(measure: string -> real, maxWidth: real, text: string)
    ensures var lines, breaks := WrapLines(measure, maxWidth, Split(text)), WrapPrefix(measure, maxWidth, Split(text)).breaks;
      |lines| - 1 <= |breaks| <= |lines| &&
      (forall i :: 0 <= i < |breaks| ==> breaks[i] in Split(text) && measure(lines[i] + " " + breaks[i]) > maxWidth) &&
      (forall i :: 0 <= i < |breaks| && i + 1 < |lines| && breaks[i] != "" ==>
        lines[i + 1] == breaks[i] || StartsWith(lines[i + 1], breaks[i] + " "))
  {
    var st := WrapPrefix(measure, maxWidth, Split(text));
    WrapPrefixInvariant(measure, maxWidth, Split(text));
    NextWordPrefix(measure, maxWidth, Split(text));
    var lines := Finish(st);
    forall i | 0 <= i < |st.breaks| && i + 1 < |lines| && st.breaks[i] != ""
      ensures lines[i + 1] == st.breaks[i] || StartsWith(lines[i + 1], st.breaks[i] + " ")
    {
      assert lines[i + 1] == NextLine(st, i);
    }
  }

  lemma WrapEmptyText(measure: string -> real, maxWidth: real)
    ensures WrapLines(measure, maxWidth, Split("")) == []
  {
    assert Split("") == [""];
    assert [""][..0] == [];
  }

  /** With no empty word, the lines are the words regrouped: the line being
      built is never empty, and joining the lines and it gives the words joined. */
  lemma {:induction false} WrapPrefixRegroups(measure: string -> real, maxWidth: real, words: seq<string>)
    requires words != [] && NoEmptyWord(words)
    ensures WrapPrefix(measure, maxWidth, words).current != ""
    ensures Join(WrapPrefix(measure, maxWidth, words).lines + [WrapPrefix(measure, maxWidth, words).current]) == Join(words)
    decreases |words|
  {
    var init, w := words[..|words| - 1], words[|words| - 1];
    assert words == init + [w];
    var st := WrapPrefix(measure, maxWidth, init);
    if init == [] {
      assert st == WrapState([], "", []);
    } else {
      WrapPrefixRegroups(measure, maxWidth, init);
      JoinSnoc(init, w);
      var testLine := st.current + " " + w;
      if measure(testLine) > maxWidth {
        JoinSnoc(st.lines + [st.current], w);
      } else {
        JoinSnoc(st.lines + [st.current], w);
        assert Join(st.lines + [testLine]) == Join(st.lines + [st.current]) + " " + w by {
          JoinLastExtended(st.lines, st.current, w);
        }
      }
    }
  }

  /** Extending the last joined word by ` w` extends the join by ` w`. */
  lemma {:induction false} JoinLastExtended(front: seq<string>, last: string, w: string)
    ensures Join(front + [last + " " + w]) == Join(front + [last]) + " " + w
    decreases |front|
  {
    if front == [] {
      assert [] + [last + " " + w] == [last + " " + w];
      assert [] + [last] == [last];
    } else {
      assert (front + [last + " " + w])[1..] == front[1..] + [last + " " + w];
      assert (front + [last])[1..] == front[1..] + [last];
      JoinLastExtended(front[1..], last, w);
    }
  }

  /** When the text has no leading, trailing or doubled spaces, joining the
      lines with single spaces reproduces it. */
  lemma WrapLinesJoin(measure: string -> real, maxWidth: real, text: string)
    requires SingleSpaced(text)
    ensures Join(WrapLines(measure, maxWidth, Split(text))) == text
  {
    SplitSingleSpaced(text);
    WrapPrefixRegroups(measure, maxWidth, Split(text));
    SplitJoin(text);
  }

  // ------------------------------------------------------------ handles

  predicate NotStop(c: char) {
    c != '/' && c != '?'
  }

  /** The greedy run `[^/?]+` at the start of `s` (possibly empty). */
  function SegmentRun(s: string): (r: string)
    ensures |r| <= |s| && r == s[..|r|]
    ensures Every(r, NotStop)
    ensures |r| < |s| ==> !NotStop(s[|r|])
  {
    if s == [] || !NotStop(s[0]) then [] else [s[0]] + SegmentRun(s[1..])
  }

  /** The literal prefix `alt` followed by a non-empty run, at the start of `s`. */
  predicate AltMatches(s: string, alt: string) {
    StartsWith(s, alt) && SegmentRun(s[|alt|..]) != []
  }

  /** The first alternative that matches at the start of `s`, as an index into
      `alts`; `|alts|` for none. */
  function MatchAlt(s: string, alts: seq<string>): (k: nat)
    ensures k <= |alts|
    ensures k < |alts| ==> AltMatches(s, alts[k])
    ensures forall j :: 0 <= j < k ==> !AltMatches(s, alts[j])
  {
    if alts == [] then 0
    else if AltMatches(s, alts[0]) then 0
    else 1 + MatchAlt(s, alts[1..])
  }

  predicate MatchesAt(s: string, alts: seq<string>) {
    MatchAlt(s, alts) < |alts|
  }

  /** The captured handle of a match at the start of `s`. */
  function Captured(s: string, alts: seq<string>): (h: string)
    requires MatchesAt(s, alts)
    ensures h != [] && Every(h, NotStop)
  {
    SegmentRun(s[|alts[MatchAlt(s, alts)]|..])
  }

  /** The first index from `i` on that holds `true`, `|hits|` for none. */
  function FirstTrue(hits: seq<bool>, i: nat): (p: nat)
    requires i <= |hits|
    ensures i <= p <= |hits|
    ensures p < |hits| ==> hits[p]
    ensures forall j :: i <= j < p ==> !hits[j]
    decreases |hits| - i
  {
    if i == |hits| || hits[i] then i else FirstTrue(hits, i + 1)
  }

  /** Whether the pattern matches at each position of `s`, end included. */
  function MatchPositions(s: string, alts: seq<string>): (hits: seq<bool>)
    ensures |hits| == |s| + 1
    ensures forall j :: 0 <= j <= |s| ==> hits[j] == MatchesAt(s[j..], alts)
  {
    seq(|s| + 1, j requires 0 <= j <= |s| => MatchesAt(s[j..], alts))
  }

  /** The leftmost position from `i` on where the pattern matches, `|s| + 1`
      for none. */
  function SearchFrom(s: string, alts: seq<string>, i: nat): (p: nat)
    requires i <= |s|
    ensures i <= p <= |s| + 1
    ensures p <= |s| ==> MatchesAt(s[p..], alts)
    ensures forall j :: i <= j < p && j <= |s| ==> !MatchesAt(s[j..], alts)
  {
    var hits := MatchPositions(s, alts);
    var p := FirstTrue(hits, i);
    assert forall j :: i <= j < p ==> !hits[j];
    p
  }

  /** `String.prototype.match` with a pattern of alternatives: the handle of
      the leftmost match, if any. */
  function Search(s: string, alts: seq<string>): (r: Option<string>)
    ensures r.Some? ==> r.value != [] && Every(r.value, NotStop)
  {
    var p := SearchFrom(s, alts, 0);
    if p <= |s| then Some(Captured(s[p..], alts)) else None
  }

  /** A pattern that matches at `p`, and nowhere before it, is found there. */
  lemma SearchFindsLeftmost(s: string, alts: seq<string>, p: nat)
    requires p <= |s| && MatchesAt(s[p..], alts)
    requires forall j :: 0 <= j < p ==> !MatchesAt(s[j..], alts)
    ensures Search(s, alts) == Some(Captured(s[p..], alts))
  {
    var q := SearchFrom(s, alts, 0);
    if q != p {
      assert false;
    }
  }

  /** A pattern that matches nowhere, end included, is not found. */
  lemma SearchFindsNothing(s: string, alts: seq<string>)
    requires forall j :: 0 <= j <= |s| ==> !MatchesAt(s[j..], alts)
    ensures Search(s, alts) == None
  {
    var q := SearchFrom(s, alts, 0);
    if q <= |s| {
      assert false;
    }
  }

  /** `s` starts with `a` followed by `b` exactly when it starts with `a` and
      the rest starts with `b`. */
  lemma StartsWithThen(s: string, a: string, b: string)
    ensures StartsWith(s, a + b) <==> StartsWith(s, a) && StartsWith(s[|a|..], b)
  {
    if StartsWith(s, a + b) {
      assert s[..|a|] == (a + b)[..|a|];
      assert s[|a|..][..|b|] == (a + b)[|a|..];
    }
    if StartsWith(s, a) && StartsWith(s[|a|..], b) {
      assert s[..|a + b|] == s[..|a|] + s[|a|..][..|b|];
    }
  }

  /** No URL starts with both `http://` and `https://`. */
  lemma SchemesDisjoint(url: string)
    ensures !(StartsWith(url, "http://") && StartsWith(url, "https://"))
  {
    if |url| >= 8 {
      assert url[..7][4] == url[..8][4];
    }
  }

  /** `url.replace(/^https?:\/\/(www\.)?/, '')`: the scheme, and after it an
      optional `www.`, come off; a `www.` without the scheme stays. */
  function StripUrlPrefix(url: string): (r: string)
    ensures StartsWith(url, "https://www.") ==> SplitsAs(url, "https://www.", r)
    ensures StartsWith(url, "https://") && !StartsWith(url, "https://www.") ==> SplitsAs(url, "https://", r)
    ensures StartsWith(url, "http://www.") ==> SplitsAs(url, "http://www.", r)
    ensures StartsWith(url, "http://") && !StartsWith(url, "http://www.") ==> SplitsAs(url, "http://", r)
    ensures !StartsWith(url, "https://") && !StartsWith(url, "http://") ==> r == url
  {
    SchemesDisjoint(url);
    StartsWithThen(url, "https://", "www.");
    StartsWithThen(url, "http://", "www.");
    assert "https://" + "www." == "https://www.";
    assert "http://" + "www." == "http://www.";
    var rest := if StartsWith(url, "https://") then url[8..]
      else if StartsWith(url, "http://") then url[7..]
      else url;
    if rest != url && StartsWith(rest, "www.") then rest[4..] else rest
  }

  const LinkedinAlts: seq<string> := ["linkedin.com/in/", "linkedin.com/company/"]
  const TwitterAlts: seq<string> := ["twitter.com/", "x.com/"]
  const InstagramAlts: seq<string> := ["instagram.com/"]
  const GithubAlts: seq<string> := ["github.com/"]

  /** The platforms that have a handle pattern, and their alternatives. */
  function PlatformAlts(platform: string): (alts: seq<string>)
    ensures platform == "linkedin" ==> alts == LinkedinAlts
    ensures platform == "twitter" ==> alts == TwitterAlts
    ensures platform == "instagram" ==> alts == InstagramAlts
    ensures platform == "github" ==> alts == GithubAlts
    ensures platform !in {"linkedin", "twitter", "instagram", "github"} ==> alts == []
  {
    if platform == "linkedin" then LinkedinAlts
    else if platform == "twitter" then TwitterAlts
    else if platform == "instagram" then InstagramAlts
    else if platform == "github" then GithubAlts
    else []
  }

  /** `extractHandle`: the handle found in the URL for a known platform, with an
      `@` for Twitter/X and Instagram; otherwise the URL without its prefix.
      Whatever the platform, the result is either the stripped URL or a
      non-empty handle free of `/` and `?`. */
  function ExtractHandle(url: string, platform: string): (r: string)
    ensures platform !in {"linkedin", "twitter", "instagram", "github"} ==> r == StripUrlPrefix(url)
    ensures platform in {"linkedin", "github"} && r != StripUrlPrefix(url) ==>
      r != [] && Every(r, NotStop)
    ensures platform in {"twitter", "instagram"} && r != StripUrlPrefix(url) ==>
      |r| > 1 && r[0] == '@' && Every(r[1..], NotStop)
  {
    var cleaned := StripUrlPrefix(url);
    if platform == "linkedin" then Search(cleaned, LinkedinAlts).GetOr(cleaned)
    else if platform == "twitter" then
      var m := Search(cleaned, TwitterAlts);
      if m.Some? then assert ("@" + m.value)[1..] == m.value; "@" + m.value else cleaned
    else if platform == "instagram" then
      var m := Search(cleaned, InstagramAlts);
      if m.Some? then assert ("@" + m.value)[1..] == m.value; "@" + m.value else cleaned
    else if platform == "github" then Search(cleaned, GithubAlts).GetOr(cleaned)
    else cleaned
  }

  /** A handle followed by nothing, or by a path or query. */
  predicate HandleThenTail(s: string, handle: string) {
    handle != [] && Every(handle, NotStop) && StartsWith(s, handle) && (|s| == |handle| || !NotStop(s[|handle|]))
  }

  lemma SegmentRunOfHandle(s: string, handle: string)
    requires HandleThenTail(s, handle)
    ensures SegmentRun(s) == handle
  {
    var r := SegmentRun(s);
    if |r| < |handle| {
      assert false;
    } else if |r| > |handle| {
      assert false;
    }
    assert s[..|handle|] == handle;
  }

  /** The leftmost match in `c` is at `p`, by alternative `k`, and captures
      `handle`: `c[p..]` is `alts[k]`, then `handle`, then nothing or a path
      or query. */
  predicate HandleAt(c: string, alts: seq<string>, p: nat, k: nat, handle: string) {
    p <= |c| && k < |alts| && StartsWith(c[p..], alts[k]) &&
    HandleThenTail(c[p..][|alts[k]|..], handle) &&
    (forall i :: 0 <= i < k ==> !StartsWith(c[p..], alts[i])) &&
    (forall j :: 0 <= j < p ==> !MatchesAt(c[j..], alts))
  }

  /** The handle described by `HandleAt` is what the search returns. */
  lemma SearchFindsHandle(c: string, alts: seq<string>, p: nat, k: nat, handle: string)
    requires HandleAt(c, alts, p, k, handle)
    ensures Search(c, alts) == Some(handle)
  {
    var s := c[p..];
    SegmentRunOfHandle(s[|alts[k]|..], handle);
    assert AltMatches(s, alts[k]);
    var m := MatchAlt(s, alts);
    if m != k {
      assert false;
    }
    SearchFindsLeftmost(c, alts, p);
  }

  /** The two LinkedIn alternatives differ at their 14th character, so no
      string starts with both. */
  lemma LinkedinAltsDisjoint(s: string)
    requires StartsWith(s, LinkedinAlts[1])
    ensures !StartsWith(s, LinkedinAlts[0])
  {
    assert s[13] == LinkedinAlts[1][13];
  }

  /** The two Twitter/X alternatives differ at their first character. */
  lemma TwitterAltsDisjoint(s: string)
    requires StartsWith(s, TwitterAlts[1])
    ensures !StartsWith(s, TwitterAlts[0])
  {
    assert s[0] == TwitterAlts[1][0];
  }

  /** A LinkedIn profile or company URL, whatever its prefix, gives the bare
      handle of its leftmost match. */
  lemma ExtractLinkedinHandle(url: string, p: nat, k: nat, handle: string)
    requires p <= |StripUrlPrefix(url)| && k < |LinkedinAlts|
    requires StartsWith(StripUrlPrefix(url)[p..], LinkedinAlts[k])
    requires HandleThenTail(StripUrlPrefix(url)[p..][|LinkedinAlts[k]|..], handle)
    requires forall j :: 0 <= j < p ==> !MatchesAt(StripUrlPrefix(url)[j..], LinkedinAlts)
    ensures ExtractHandle(url, "linkedin") == handle
  {
    var c := StripUrlPrefix(url);
    if k == 1 {
      LinkedinAltsDisjoint(c[p..]);
    }
    SearchFindsHandle(c, LinkedinAlts, p, k, handle);
  }

  /** A twitter.com or x.com URL, whatever its prefix, gives `@` and the
      handle of its leftmost match. */
  lemma ExtractTwitterHandle(url: string, p: nat, k: nat, handle: string)
    requires p <= |StripUrlPrefix(url)| && k < |TwitterAlts|
    requires StartsWith(StripUrlPrefix(url)[p..], TwitterAlts[k])
    requires HandleThenTail(StripUrlPrefix(url)[p..][|TwitterAlts[k]|..], handle)
    requires forall j :: 0 <= j < p ==> !MatchesAt(StripUrlPrefix(url)[j..], TwitterAlts)
    ensures ExtractHandle(url, "twitter") == "@" + handle
  {
    var c := StripUrlPrefix(url);
    if k == 1 {
      TwitterAltsDisjoint(c[p..]);
    }
    SearchFindsHandle(c, TwitterAlts, p, k, handle);
  }

  /** An instagram.com URL, whatever its prefix, gives `@` and the handle of
      its leftmost match. */
  lemma ExtractInstagramHandle(url: string, p: nat, handle: string)
    requires HandleAt(StripUrlPrefix(url), InstagramAlts, p, 0, handle)
    ensures ExtractHandle(url, "instagram") == "@" + handle
  {
    SearchFindsHandle(StripUrlPrefix(url), InstagramAlts, p, 0, handle);
  }

  /** A github.com URL, whatever its prefix, gives the bare handle of its
      leftmost match. */
  lemma ExtractGithubHandle(url: string, p: nat, handle: string)
    requires HandleAt(StripUrlPrefix(url), GithubAlts, p, 0, handle)
    ensures ExtractHandle(url, "github") == handle
  {
    SearchFindsHandle(StripUrlPrefix(url), GithubAlts, p, 0, handle);
  }

  /** When the platform's pattern matches nowhere in the stripped URL, the
      stripped URL is the result. */
  lemma ExtractNoMatch(url: string, platform: string)
    requires forall j :: 0 <= j <= |StripUrlPrefix(url)| ==> !MatchesAt(StripUrlPrefix(url)[j..], PlatformAlts(platform))
    ensures ExtractHandle(url, platform) == StripUrlPrefix(url)
  {
    SearchFindsNothing(StripUrlPrefix(url), PlatformAlts(platform));
  }

  // ------------------------------------------------------------ font and side

  const DefaultFont: string := "Arial, sans-serif"

  /** `getFontFamily`: a missing, empty or `'system'` family becomes the
      default sans-serif stack; any other family is kept. */
  function GetFontFamily(fontFamily: Option<string>): (r: string)
    ensures (!Given(fontFamily) || fontFamily.value == "system") ==> r == DefaultFont
    ensures Given(fontFamily) && fontFamily.value != "system" ==> r == fontFamily.value
  {
    if !Given(fontFamily) || fontFamily.value == "system" then DefaultFont else fontFamily.value
  }

  /** The result is never empty, and feeding it back changes nothing. */
  lemma GetFontFamilyIdempotent(fontFamily: Option<string>)
    ensures GetFontFamily(fontFamily) != ""
    ensures GetFontFamily(Some(GetFontFamily(fontFamily))) == GetFontFamily(fontFamily)
  {
  }

  datatype Side = Front | Back

  /** `renderCardToCanvas` before drawing: the background colour, the corner
      radius of the clip when the corners are not square, and the side drawn. */
  datatype RenderPlan = RenderPlan(background: Option<string>, clipRadius: Option<int>, side: Side)

  function PlanRender(data: CardData, colors: seq<string>, width: int, isBack: bool): (plan: RenderPlan)
    ensures plan.side == Back <==> isBack && IsTrue(data.includeBack) && Given(data.backText)
    ensures plan.clipRadius.Some? <==> data.cornerStyle != Some(Square)
    ensures plan.clipRadius.Some? ==> plan.clipRadius.value == Round(width as real * 0.015)
    ensures plan.background == if colors == [] then None else Some(colors[0])
  {
    RenderPlan(
      if colors == [] then None else Some(colors[0]),
      if data.cornerStyle != Some(Square) then Some(Round(width as real * 0.015)) else None,
      if isBack && IsTrue(data.includeBack) && Given(data.backText) then Back else Front)
  }

  /** The front is drawn whenever the back is not asked for, or has no text. */
  lemma FrontUnlessBackText(data: CardData, colors: seq<string>, width: int, isBack: bool)
    requires !isBack || !IsTrue(data.includeBack) || !Given(data.backText)
    ensures PlanRender(data, colors, width, isBack).side == Front
  {
  }
}
