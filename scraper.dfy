/** The parts of packages/admin/src/lib/scraper.ts that are the program's own
    logic: choosing the main content by selector priority, cleaning up its
    white space, and reading back the saved content file. The browser and the
    file system are abstracted: a page is the text of the first match of each
    selector, and the content file is a value saying whether it exists and
    what reading it gives. */
module Scraper {
  import opened Results
  import opened Text

  /** The selectors tried in order (lines 23-32); `body` is the last fallback. */
  const Selectors: seq<string> :=
    ["main", "[role=\"main\"]", ".content", ".main-content", "article", ".post", ".page-content", "body"]

  /** A rendered page: for each selector that matches some element, the
      `innerText` of its first match. */
  type Page = map<string, string>

  /** `Selectors[k]` is the first selector that matches `page`. */
  predicate IsFirstMatch(page: Page, k: int) {
    0 <= k < |Selectors| && Selectors[k] in page &&
    forall j :: 0 <= j < k ==> Selectors[j] !in page
  }

  /** The text of the first selector, from position `i` on, that matches
      `page`, or "" when none does. */
  function MatchFrom(page: Page, i: nat): string
    decreases |Selectors| - i
  {
    if i >= |Selectors| then ""
    else if Selectors[i] in page then page[Selectors[i]]
    else MatchFrom(page, i + 1)
  }

  /** The main content of `page`: the text of its first matching selector. */
  function MainContent(page: Page): string {
    MatchFrom(page, 0)
  }

  lemma {:induction false} MatchFromFirst(page: Page, i: nat, k: int)
    requires i <= k && IsFirstMatch(page, k)
    ensures MatchFrom(page, i) == page[Selectors[k]]
    decreases |Selectors| - i
  {
    if i < k {
      MatchFromFirst(page, i + 1, k);
    }
  }

  lemma {:induction false} MatchFromNone(page: Page, i: nat)
    requires forall k :: i <= k < |Selectors| ==> Selectors[k] !in page
    ensures MatchFrom(page, i) == ""
    decreases |Selectors| - i
  {
    if i < |Selectors| {
      MatchFromNone(page, i + 1);
    }
  }

  /** The main content is the text of the first matching selector, and empty
      when no selector matches. */
  lemma MainContentIsFirstMatch(page: Page)
    ensures (forall k :: 0 <= k < |Selectors| ==> Selectors[k] !in page) ==> MainContent(page) == ""
    ensures forall k :: IsFirstMatch(page, k) ==> MainContent(page) == page[Selectors[k]]
  {
    forall k | IsFirstMatch(page, k) ensures MainContent(page) == page[Selectors[k]] {
      MatchFromFirst(page, 0, k);
    }
    if forall k :: 0 <= k < |Selectors| ==> Selectors[k] !in page {
      MatchFromNone(page, 0);
    }
  }

  /** The selector loop of lines 34-42: it stops at the first selector that
      matches. */
  method SelectMainContent(page: Page) returns (mainContent: string)
    ensures mainContent == MainContent(page)
  {
    mainContent := "";
    for i := 0 to |Selectors|
      invariant MatchFrom(page, 0) == MatchFrom(page, i)
      invariant mainContent == ""
    {
      var selector := Selectors[i];
      if selector in page {
        mainContent := page[selector];
        return;
      }
    }
  }

  // ----- White-space clean-up (lines 45-48) -----

  /** The length of the white-space run that `s` starts with. */
  function LeadingSpace(s: string): (n: nat)
    ensures n <= |s| && AllSpace(s[..n])
    ensures n == |s| || !IsSpace(s[n])
    decreases |s|
  {
    if s != [] && IsSpace(s[0]) then
      var n := 1 + LeadingSpace(s[1..]);
      assert forall c :: c in s[..n] ==> c == s[0] || c in s[1..][..n - 1] by {
        assert s[..n] == [s[0]] + s[1..][..n - 1];
      }
      n
    else 0
  }

  /** `.replace(/\s+/g, ' ')`: every run of white space becomes one space. */
  function Collapse(s: string): (r: string)
    ensures r == [] <==> s == []
    ensures r != [] ==> (IsSpace(r[0]) <==> IsSpace(s[0]))
    decreases |s|
  {
    if s == [] then []
    else if IsSpace(s[0]) then [' '] + Collapse(s[LeadingSpace(s)..])
    else [s[0]] + Collapse(s[1..])
  }

  /** A run of white space followed by text that does not start with white
      space: the run is exactly the leading white space. */
  lemma {:induction false} LeadingSpaceOfRun(w: string, b: string)
    requires AllSpace(w) && (b == [] || !IsSpace(b[0]))
    ensures LeadingSpace(w + b) == |w|
    decreases |w|
  {
    if w == [] {
      assert w + b == b;
    } else {
      assert (w + b)[0] == w[0] && w[0] in w;
      assert (w + b)[1..] == w[1..] + b;
      assert AllSpace(w[1..]) by {
        forall c | c in w[1..] ensures IsSpace(c) { assert c in w; }
      }
      LeadingSpaceOfRun(w[1..], b);
    }
  }

  /** Text that ends in a visible character: what follows it does not change
      its leading white space, which stops short of its end. */
  lemma {:induction false} LeadingSpaceAppend(a: string, t: string)
    requires a != [] && !IsSpace(a[|a| - 1])
    ensures LeadingSpace(a + t) == LeadingSpace(a) < |a|
    decreases |a|
  {
    assert (a + t)[0] == a[0];
    if IsSpace(a[0]) {
      assert (a + t)[1..] == a[1..] + t;
      LeadingSpaceAppend(a[1..], t);
    }
  }

  /** One step of `Collapse` on text that starts with white space and ends
      with a visible character, with and without a tail after it. */
  lemma CollapseSpaceStep(a: string, t: string)
    requires a != [] && IsSpace(a[0]) && !IsSpace(a[|a| - 1])
    ensures 0 < LeadingSpace(a) < |a|
    ensures Collapse(a) == [' '] + Collapse(a[LeadingSpace(a)..])
    ensures Collapse(a + t) == [' '] + Collapse(a[LeadingSpace(a)..] + t)
  {
    var n := LeadingSpace(a);
    LeadingSpaceAppend(a, t);
    assert (a + t)[0] == a[0];
    assert (a + t)[n..] == a[n..] + t;
  }

  /** One step of `Collapse` on text that starts with a visible character. */
  lemma CollapseCharStep(a: string, t: string)
    requires a != [] && !IsSpace(a[0])
    ensures Collapse(a) == [a[0]] + Collapse(a[1..])
    ensures Collapse(a + t) == [a[0]] + Collapse(a[1..] + t)
  {
    assert (a + t)[0] == a[0] && (a + t)[1..] == a[1..] + t;
  }

  /** Collapsing works piece by piece across a cut just after a visible
      character (or at the start). */
  lemma {:induction false} CollapseAppend(a: string, t: string)
    requires a == [] || !IsSpace(a[|a| - 1])
    ensures Collapse(a + t) == Collapse(a) + Collapse(t)
    decreases |a|
  {
    if a == [] {
      assert a + t == t;
    } else if IsSpace(a[0]) {
      var rest := a[LeadingSpace(a)..];
      CollapseSpaceStep(a, t);
      CollapseAppend(rest, t);
      AppendAssoc([' '], Collapse(rest), Collapse(t));
    } else {
      CollapseCharStep(a, t);
      CollapseAppend(a[1..], t);
      AppendAssoc([a[0]], Collapse(a[1..]), Collapse(t));
    }
  }

  /** A white-space run at the start of the text collapses to one space. */
  lemma CollapseLeadingRun(w: string, b: string)
    requires w != [] && AllSpace(w)
    requires b == [] || !IsSpace(b[0])
    ensures Collapse(w + b) == " " + Collapse(b)
  {
    LeadingSpaceOfRun(w, b);
    assert (w + b)[0] == w[0] && w[0] in w;
    assert (w + b)[|w|..] == b;
  }

  /** Every maximal run of white space, whatever its length and its mix of
      spaces, tabs and line breaks, becomes exactly one space, and the text
      on either side of it is collapsed on its own. */
  lemma CollapseRun(a: string, w: string, b: string)
    requires w != [] && AllSpace(w)
    requires a == [] || !IsSpace(a[|a| - 1])
    requires b == [] || !IsSpace(b[0])
    ensures Collapse(a + w + b) == Collapse(a) + " " + Collapse(b)
  {
    AppendAssoc(a, w, b);
    CollapseAppend(a, w + b);
    CollapseLeadingRun(w, b);
    AppendAssoc(Collapse(a), " ", Collapse(b));
  }

  /** The index of the last line feed in `s`, if any. */
  function LastNewline(s: string): (k: Option<nat>)
    ensures k.Some? ==> k.value < |s| && s[k.value] == '\n'
    ensures k.None? ==> '\n' !in s
  {
    if s == [] then None
    else if s[|s| - 1] == '\n' then Some(|s| - 1)
    else
      var k := LastNewline(s[..|s| - 1]);
      assert forall c :: c in s ==> c in s[..|s| - 1] || c == s[|s| - 1] by {
        assert s == s[..|s| - 1] + [s[|s| - 1]];
      }
      k
  }

  /** `.replace(/\n\s*\n/g, '\n')`, scanning left to right as the regular
      expression engine does: at a line feed, the greedy `\s*` takes the whole
      white-space run that follows and gives back characters until a line feed
      comes next; the match is replaced by one line feed. */
  function RemoveBlankLines(s: string): (r: string)
    ensures '\n' !in s ==> r == s
    decreases |s|
  {
    if s == [] then []
    else if s[0] == '\n' && LastNewline(s[1..][..LeadingSpace(s[1..])]).Some? then
      var k := LastNewline(s[1..][..LeadingSpace(s[1..])]).value;
      assert s[1..][..LeadingSpace(s[1..])][k] == s[k + 1];
      "\n" + RemoveBlankLines(s[k + 2..])
    else
      assert forall c :: c in s[1..] ==> c in s;
      [s[0]] + RemoveBlankLines(s[1..])
  }

  /** The clean-up expression of lines 45-48. */
  function Clean(s: string): (cleaned: string) {
    Trim(RemoveBlankLines(Collapse(s)))
  }

  /** No white space but the plain space, and never two in a row. */
  predicate IsCollapsed(s: string) {
    (forall i :: 0 <= i < |s| && IsSpace(s[i]) ==> s[i] == ' ') &&
    (forall i :: 0 < i < |s| && IsSpace(s[i]) ==> !IsSpace(s[i - 1]))
  }

  lemma {:induction false} CollapseIsCollapsed(s: string)
    ensures IsCollapsed(Collapse(s))
    decreases |s|
  {
    if s != [] {
      var r := Collapse(s);
      if IsSpace(s[0]) {
        var rest := s[LeadingSpace(s)..];
        CollapseIsCollapsed(rest);
        assert r == [' '] + Collapse(rest);
      } else {
        CollapseIsCollapsed(s[1..]);
        assert r == [s[0]] + Collapse(s[1..]);
      }
    }
  }

  /** The characters of `s` that are not white space, in order. */
  function Visible(s: string): string
    decreases |s|
  {
    if s == [] then [] else (if IsSpace(s[0]) then [] else [s[0]]) + Visible(s[1..])
  }

  lemma {:induction false} VisibleAppend(a: string, b: string)
    ensures Visible(a + b) == Visible(a) + Visible(b)
    decreases |a|
  {
    if a != [] {
      assert (a + b)[1..] == a[1..] + b;
      VisibleAppend(a[1..], b);
    } else {
      assert a + b == b;
    }
  }

  lemma {:induction false} VisibleOfSpace(s: string)
    requires AllSpace(s)
    ensures Visible(s) == []
    decreases |s|
  {
    if s != [] {
      assert s[0] in s;
      assert forall c :: c in s[1..] ==> c in s;
      VisibleOfSpace(s[1..]);
    }
  }

  /** Collapsing keeps every character that is not white space, in order. */
  lemma {:induction false} CollapseKeepsVisible(s: string)
    ensures Visible(Collapse(s)) == Visible(s)
    decreases |s|
  {
    if s != [] {
      if IsSpace(s[0]) {
        var n := LeadingSpace(s);
        CollapseKeepsVisible(s[n..]);
        assert s == s[..n] + s[n..];
        VisibleAppend(s[..n], s[n..]);
        VisibleOfSpace(s[..n]);
        assert Collapse(s) == [' '] + Collapse(s[n..]);
        VisibleAppend([' '], Collapse(s[n..]));
      } else {
        CollapseKeepsVisible(s[1..]);
        assert Collapse(s) == [s[0]] + Collapse(s[1..]);
      }
    }
  }

  lemma VisibleOfPadded(pre: string, r: string, post: string)
    requires AllSpace(pre) && AllSpace(post)
    ensures Visible(pre + r + post) == Visible(r)
  {
    VisibleAppend(pre + r, post);
    VisibleAppend(pre, r);
    VisibleOfSpace(pre);
    VisibleOfSpace(post);
  }

  /** Trimming keeps every character that is not white space, in order. */
  lemma TrimKeepsVisible(s: string)
    ensures Visible(Trim(s)) == Visible(s)
  {
    var o, r := TrimOffset(s), Trim(s);
    TrimDecompose(s);
    assert s == s[..o] + r + s[o + |r|..];
    VisibleOfPadded(s[..o], r, s[o + |r|..]);
  }

  /** A slice of a collapsed string is collapsed. */
  lemma SliceCollapsed(s: string, i: int, j: int, t: string)
    requires 0 <= i <= j <= |s| && IsCollapsed(s) && t == s[i..j]
    ensures IsCollapsed(t)
  {
    assert forall k :: 0 <= k < |t| ==> t[k] == s[i + k];
  }

  lemma CollapsedHasNoNewline(s: string)
    requires IsCollapsed(s)
    ensures '\n' !in s
  {
    forall i | 0 <= i < |s| ensures s[i] != '\n' {
      if IsSpace(s[i]) { assert s[i] == ' '; }
    }
  }

  /** Cleaned text has no white space at either end, no white space other than
      the plain space, no two spaces in a row, and so no line feed: the
      blank-line replacement never changes anything. */
  lemma CleanShape(s: string)
    ensures IsTrimmed(Clean(s)) && IsCollapsed(Clean(s)) && '\n' !in Clean(s)
    ensures RemoveBlankLines(Collapse(s)) == Collapse(s)
  {
    CollapseIsCollapsed(s);
    CollapsedHasNoNewline(Collapse(s));
    TrimCollapsed(Collapse(s));
    CollapsedHasNoNewline(Trim(Collapse(s)));
  }

  lemma TrimCollapsed(c: string)
    requires IsCollapsed(c)
    ensures IsCollapsed(Trim(c))
  {
    TrimDecompose(c);
    SliceCollapsed(c, TrimOffset(c), TrimOffset(c) + |Trim(c)|, Trim(c));
  }

  /** Cleaning keeps every character of the page text that is not white
      space, in order. */
  lemma CleanKeepsVisible(s: string)
    ensures Visible(Clean(s)) == Visible(s)
  {
    CleanShape(s);
    CollapseKeepsVisible(s);
    TrimKeepsVisible(Collapse(s));
  }

  lemma {:induction false} CollapseOfCollapsed(s: string)
    requires IsCollapsed(s) && (s == [] || !IsSpace(s[0]))
    ensures Collapse(s) == s
    decreases |s|
  {
    if s != [] {
      SliceCollapsed(s, 1, |s|, s[1..]);
      var rest := s[1..];
      if rest != [] && IsSpace(rest[0]) {
        assert s[1] == ' ' && !IsSpace(s[0]);
        // A space is followed by a non-space or nothing.
        assert |rest| == 1 || !IsSpace(rest[1]);
        assert LeadingSpace(rest) == 1;
        if |rest| > 1 {
          SliceCollapsed(s, 2, |s|, s[2..]);
          CollapseOfCollapsed(rest[1..]);
        }
        assert Collapse(rest) == [' '] + Collapse(rest[1..]);
      } else {
        CollapseOfCollapsed(rest);
      }
    }
  }

  /** Cleaning cleaned text changes nothing. */
  lemma CleanIdempotent(s: string)
    ensures Clean(Clean(s)) == Clean(s)
  {
    var c := Clean(s);
    CleanShape(s);
    CollapseOfCollapsed(c);
    assert RemoveBlankLines(c) == c;
    TrimOfTrimmed(c);
  }

  // ----- The saved content file (lines 71-104) -----

  /** The content file as the file system presents it: absent, or present with
      what reading it gives (`None` when the read throws) and its modification
      time (`None` when `statSync` throws). */
  datatype ContentFile =
    | Absent
    | Present(content: Option<string>, mtime: Option<int>)

  /** The content file can be read: it exists and reading it does not throw. */
  predicate Readable(file: ContentFile) {
    file.Present? && file.content.Some?
  }

  datatype ReadError =
    | NotScraped   // "Scraped content file not found. Please run scraping first."
    | ReadFailed   // the error thrown by the read, passed on unchanged

  const NotScrapedMessage := "Scraped content file not found. Please run scraping first."

  /** `readScrapedContent`: the file's text, or the error it throws. */
  function ReadScrapedContent(file: ContentFile): (r: Result<string, ReadError>)
    ensures r.Ok? <==> Readable(file)
    ensures r.Ok? ==> r.value == file.content.value
    ensures file.Absent? ==> r == Err(NotScraped)
  {
    match file
    case Absent => Err(NotScraped)
    case Present(content, _) =>
      if content.Some? then Ok(content.value) else Err(ReadFailed)
  }

  datatype Stats = Stats(hasContent: bool, contentLength: nat, timestamp: Option<int>)

  /** `getScrapedContentStats`: an error inside the `try` is only logged. A
      failed read leaves the length and time at their initial 0 and null; a
      failed stat comes after the length was set, so it keeps the length and
      leaves only the time null. */
  function ScrapedContentStats(file: ContentFile): (stats: Stats)
    ensures stats.hasContent <==> file.Present?
    ensures file.Absent? ==> stats.contentLength == 0 && stats.timestamp.None?
    ensures Readable(file) ==> stats.contentLength == |file.content.value| && stats.timestamp == file.mtime
    ensures file.Present? && file.content.None? ==> stats.contentLength == 0 && stats.timestamp.None?
    ensures stats.contentLength > 0 ==> file.Present? && file.content.Some?
    ensures stats.timestamp.Some? <==> file.Present? && file.content.Some? && file.mtime.Some?
  {
    match file
    case Absent => Stats(false, 0, None)
    case Present(content, mtime) =>
      if content.None? then Stats(true, 0, None)
      else Stats(true, |content.value|, mtime)
  }
}
