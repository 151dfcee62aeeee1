/** `main` of `antenati.py`: derive the folder from the URL given on the
    command line, refuse an existing folder, then fetch page after page,
    feeding the gallery lines to the image parser and the navigation lines to
    the URL parser, for as long as a page has a navigation line; finally wait
    for every started download.  The network is a function from URL to the
    lines of the page it returns; the file system is the set of paths
    that already exist. */
module PageWalk {
  import opened Wrappers
  import opened UrlNames
  import opened HtmlParsers

  /** One line of a fetched page: its text, and the start tags the HTML
      tokenizer reports when the line is fed. */
  datatype Line = Line(text: string, tags: seq<Tag>)

  predicate StartsWith(text: string, pat: string) {
    |pat| <= |text| && text[..|pat|] == pat
  }

  /** Python's `pat in text`. */
  predicate Contains(text: string, pat: string)
    decreases |text|
  {
    StartsWith(text, pat) || (|text| > 0 && Contains(text[1..], pat))
  }

  /** Lines fed to the image parser contain this. */
  const ImageMarker := "zoomAntenati1"
  /** Lines fed to the URL parser, and that keep the loop going, contain this. */
  const NextMarker := "successivo"

  /** The state after scanning (some of) the lines of a page. */
  datatype Scan = Scan(jobs: seq<Job>, next: string, stop: bool, error: Option<Error>)

  /** The `for line in ...` loop over one page. */
  function ScanPage(filename: Option<string>, jobs: seq<Job>, next: string, stop: bool, lines: seq<Line>): Scan
    decreases |lines|
  {
    if |lines| == 0 then Scan(jobs, next, stop, None)
    else
      var line := lines[0];
      var img := if Contains(line.text, ImageMarker) then ImageFeed(filename, jobs, line.tags) else Fed(jobs, None);
      if img.error.Some? then Scan(img.state, next, stop, img.error)
      else if Contains(line.text, NextMarker) then
        var u := UrlFeed(next, line.tags);
        if u.error.Some? then Scan(img.state, u.state, false, u.error)
        else ScanPage(filename, img.state, u.state, false, lines[1..])
      else ScanPage(filename, img.state, next, stop, lines[1..])
  }

  /** The tags of the lines that contain `marker`, in order. */
  function TagsOfLines(lines: seq<Line>, marker: string): seq<Tag>
    decreases |lines|
  {
    if |lines| == 0 then []
    else (if Contains(lines[0].text, marker) then lines[0].tags else []) + TagsOfLines(lines[1..], marker)
  }

  predicate HasLine(lines: seq<Line>, marker: string) {
    exists i :: 0 <= i < |lines| && Contains(lines[i].text, marker)
  }

  /** What one pass of the page loop does to the parsers: the image parser
      sees exactly the tags of the `zoomAntenati1` lines and the URL parser
      exactly those of the `successivo` lines, each in page order; the pass
      raises exactly when one of those two feeds would; and `stop` stays set
      exactly when no line contains `successivo`. */
  lemma {:induction false} ScanPageSpec(filename: Option<string>, jobs: seq<Job>, next: string, stop: bool, lines: seq<Line>)
    ensures var s := ScanPage(filename, jobs, next, stop, lines);
      var i := ImageFeed(filename, jobs, TagsOfLines(lines, ImageMarker));
      var u := UrlFeed(next, TagsOfLines(lines, NextMarker));
      && (s.error.None? <==> i.error.None? && u.error.None?)
      && (s.error.None? ==>
            s.jobs == i.state && s.next == u.state && s.stop == (stop && !HasLine(lines, NextMarker)))
    decreases |lines|
  {
    if |lines| > 0 {
      var line, rest := lines[0], lines[1..];
      var ia := if Contains(line.text, ImageMarker) then line.tags else [];
      var na := if Contains(line.text, NextMarker) then line.tags else [];
      var ib, nb := TagsOfLines(rest, ImageMarker), TagsOfLines(rest, NextMarker);
      assert TagsOfLines(lines, ImageMarker) == ia + ib;
      assert TagsOfLines(lines, NextMarker) == na + nb;
      ImageFeedAppend(filename, jobs, ia, ib);
      UrlFeedAppend(next, na, nb);
      assert ImageFeed(filename, jobs, []) == Fed(jobs, None);
      assert UrlFeed(next, []) == Fed(next, None);
      var img := ImageFeed(filename, jobs, ia);
      ImageFeedSucceeds(filename, jobs, ia);
      UrlFeedSpec(next, na);
      assert HasLine(lines, NextMarker) <==> Contains(line.text, NextMarker) || HasLine(rest, NextMarker) by {
        if HasLine(rest, NextMarker) {
          var k :| 0 <= k < |rest| && Contains(rest[k].text, NextMarker);
          assert lines[k + 1] == rest[k];
        }
        if HasLine(lines, NextMarker) && !Contains(line.text, NextMarker) {
          var k :| 0 <= k < |lines| && Contains(lines[k].text, NextMarker);
          assert k > 0 && rest[k - 1] == lines[k];
        }
      }
      if img.error.None? {
        var u := UrlFeed(next, na);
        if u.error.None? {
          var stop' := if Contains(line.text, NextMarker) then false else stop;
          ScanPageSpec(filename, img.state, u.state, stop', rest);
          ImageFeedSucceeds(filename, img.state, ib);
          UrlFeedSpec(u.state, nb);
        } else {
          ImageFeedSucceeds(filename, img.state, ib);
        }
      }
    }
  }

  /** What the page loop leaves: the URLs fetched, in order, the jobs
      started, the exception that ended `main`, if one did, and whether the
      loop ended because a page had no `successivo` line. */
  datatype Walked = Walked(visited: seq<string>, jobs: seq<Job>, error: Option<Error>, finished: bool)

  /** The `while not stop` loop, given at most `fuel` more pages. */
  function Walk(fetch: string -> seq<Line>, next: string, jobs: seq<Job>, fuel: nat): Walked
    decreases fuel
  {
    if fuel == 0 then Walked([], jobs, None, false)
    else
      match ImageBase(next)
      case Failure(e) => Walked([next], jobs, Some(e), false)
      case Success(base) =>
        var s := ScanPage(Some(ImageFileName(base)), jobs, next, true, fetch(next));
        if s.error.Some? then Walked([next], s.jobs, s.error, false)
        else if s.stop then Walked([next], s.jobs, None, true)
        else
          var w := Walk(fetch, s.next, s.jobs, fuel - 1);
          w.(visited := [next] + w.visited)
  }

  /** How `main` ends. */
  datatype Outcome =
    /** An exception ended `main`; the downloads already started still run
        to the end, since their threads are not daemon threads. */
    | Crashed(error: Error, visited: seq<string>, jobs: seq<Job>)
    | FolderExists(folder: string)
    | Finished(folder: string, visited: seq<string>, joined: seq<Job>)
    | OutOfFuel(folder: string, visited: seq<string>)

  /** `main`, run on the command line `argv`. */
  function Run(argv: seq<string>, existing: set<string>, fetch: string -> seq<Line>, fuel: nat): Outcome {
    if |argv| < 2 then Crashed(IndexError, [], [])
    else match FolderName(argv[1])
      case Failure(e) => Crashed(e, [], [])
      case Success(folder) =>
        if folder in existing then FolderExists(folder)
        else
          var w := Walk(fetch, argv[1], [], fuel);
          if w.error.Some? then Crashed(w.error.value, w.visited, w.jobs)
          else if w.finished then Finished(folder, w.visited, w.jobs)
          else OutOfFuel(folder, w.visited)
  }

  /** The two facts about one page pass that the walk lemmas use. */
  lemma PagePass(filename: Option<string>, jobs: seq<Job>, next: string, lines: seq<Line>)
    ensures var s := ScanPage(filename, jobs, next, true, lines);
      s.error.None? ==>
        (s.stop <==> !HasLine(lines, NextMarker)) &&
        s.next == UrlFeed(next, TagsOfLines(lines, NextMarker)).state
  {
    ScanPageSpec(filename, jobs, next, true, lines);
  }

  /** The stop rule, stated of what a walk with `fuel` pages left
      returned: a fetched page is followed by another fetch exactly when it
      has a `successivo` line; a walk that ends by itself ends on its first
      page without one, and a walk that runs out of fuel fetched exactly
      `fuel` pages. */
  predicate StopRuleHolds(fetch: string -> seq<Line>, w: Walked, fuel: nat) {
    w.error.None? ==>
      && |w.visited| == (if w.finished then |w.visited| else fuel)
      && (w.finished ==> |w.visited| >= 1)
      && forall k :: 0 <= k < |w.visited| ==>
           (HasLine(fetch(w.visited[k]), NextMarker) <==> !(w.finished && k == |w.visited| - 1))
  }

  lemma StopRuleStep(fetch: string -> seq<Line>, next: string, w': Walked, fuel: nat)
    requires fuel > 0 && HasLine(fetch(next), NextMarker)
    requires StopRuleHolds(fetch, w', fuel - 1)
    ensures StopRuleHolds(fetch, w'.(visited := [next] + w'.visited), fuel)
  {
    var w := w'.(visited := [next] + w'.visited);
    if w.error.None? {
      forall k | 1 <= k < |w.visited|
        ensures HasLine(fetch(w.visited[k]), NextMarker) <==> !(w.finished && k == |w.visited| - 1)
      {
        assert w.visited[k] == w'.visited[k - 1];
      }
    }
  }

  /** The stop rule holds for every walk. */
  lemma {:induction false} WalkStopRule(fetch: string -> seq<Line>, next: string, jobs: seq<Job>, fuel: nat)
    ensures StopRuleHolds(fetch, Walk(fetch, next, jobs, fuel), fuel)
    decreases fuel
  {
    if fuel > 0 && ImageBase(next).Success? {
      var f := Some(ImageFileName(ImageBase(next).value));
      var s := ScanPage(f, jobs, next, true, fetch(next));
      PagePass(f, jobs, next, fetch(next));
      if s.error.None? && s.stop {
        assert Walk(fetch, next, jobs, fuel) == Walked([next], s.jobs, None, true);
        assert !HasLine(fetch(next), NextMarker);
      } else if s.error.None? {
        var w' := Walk(fetch, s.next, s.jobs, fuel - 1);
        assert Walk(fetch, next, jobs, fuel) == w'.(visited := [next] + w'.visited);
        WalkStopRule(fetch, s.next, s.jobs, fuel - 1);
        StopRuleStep(fetch, next, w', fuel);
      }
    }
  }

  /** The walk follows the links: it starts at the given URL, and each next
      URL is what the URL parser made of the `successivo` lines of the page
      before; no job is ever removed. */
  lemma {:induction false} WalkFollowsLinks(fetch: string -> seq<Line>, next: string, jobs: seq<Job>, fuel: nat)
    ensures var w := Walk(fetch, next, jobs, fuel);
      && |w.visited| <= fuel
      && (fuel > 0 ==> |w.visited| >= 1 && w.visited[0] == next)
      && |jobs| <= |w.jobs| && w.jobs[..|jobs|] == jobs
      && forall k :: 0 <= k < |w.visited| - 1 ==>
           w.visited[k + 1] == UrlFeed(w.visited[k], TagsOfLines(fetch(w.visited[k]), NextMarker)).state
    decreases fuel
  {
    if fuel > 0 {
      match ImageBase(next)
      case Failure(e) =>
      case Success(base) =>
        var f := Some(ImageFileName(base));
        var s := ScanPage(f, jobs, next, true, fetch(next));
        PagePass(f, jobs, next, fetch(next));
        ScanPageKeepsJobs(f, jobs, next, true, fetch(next));
        if s.error.None? && !s.stop {
          WalkFollowsLinks(fetch, s.next, s.jobs, fuel - 1);
          var w' := Walk(fetch, s.next, s.jobs, fuel - 1);
          var w := Walk(fetch, next, jobs, fuel);
          assert w.visited == [next] + w'.visited;
          assert w.jobs[..|jobs|] == w'.jobs[..|s.jobs|][..|jobs|];
          forall k | 0 <= k < |w.visited| - 1
            ensures w.visited[k + 1] == UrlFeed(w.visited[k], TagsOfLines(fetch(w.visited[k]), NextMarker)).state
          {
            if k > 0 { assert w.visited[k] == w'.visited[k - 1]; }
          }
        }
    }
  }

  /** Scanning a page never removes a job. */
  lemma {:induction false} ScanPageKeepsJobs(filename: Option<string>, jobs: seq<Job>, next: string, stop: bool, lines: seq<Line>)
    ensures var s := ScanPage(filename, jobs, next, stop, lines);
      |jobs| <= |s.jobs| && s.jobs[..|jobs|] == jobs
    decreases |lines|
  {
    if |lines| > 0 {
      var line := lines[0];
      if Contains(line.text, ImageMarker) {
        ImageFeedKeepsJobs(filename, jobs, line.tags);
      }
      var img := if Contains(line.text, ImageMarker) then ImageFeed(filename, jobs, line.tags) else Fed(jobs, None);
      if img.error.None? {
        var next' := if Contains(line.text, NextMarker) then UrlFeed(next, line.tags).state else next;
        var stop' := if Contains(line.text, NextMarker) then false else stop;
        ScanPageKeepsJobs(filename, img.state, next', stop', lines[1..]);
        var s := ScanPage(filename, img.state, next', stop', lines[1..]);
        assert s.jobs[..|jobs|] == s.jobs[..|img.state|][..|jobs|];
      }
    }
  }

  /** The `for line in r.data.split("\n")` loop over one fetched page:
      returns the `stop` flag the page leaves (it starts set) and the
      exception that ended the scan, if any. */
  method ScanLines(img: ImageHtmlParser, url: UrlHtmlParser, lines: seq<Line>) returns (stop: bool, err: Option<Error>)
    modifies img`jobs, url
    ensures ScanPage(img.filename, old(img.jobs), old(url.next), true, lines) == Scan(img.jobs, url.next, stop, err)
  {
    ghost var scan := ScanPage(img.filename, img.jobs, url.next, true, lines);
    stop := true;
    err := None;
    var i := 0;
    while i < |lines|
      invariant 0 <= i <= |lines|
      invariant img.filename == old(img.filename) && err.None?
      invariant scan == ScanPage(img.filename, img.jobs, url.next, stop, lines[i..])
    {
      var line := lines[i];
      assert lines[i..][0] == line && lines[i..][1..] == lines[i + 1..];
      if Contains(line.text, ImageMarker) {
        err := img.Feed(line.tags);
        if err.Some? {
          return;
        }
      }
      if Contains(line.text, NextMarker) {
        stop := false;
        err := url.Feed(line.tags);
        if err.Some? {
          return;
        }
      }
      i := i + 1;
    }
    assert lines[i..] == [];
  }

  /** `for t in img_parser.get_threads(): t.join()`: every started job is
      waited for, in the order it was started. */
  method JoinAll(jobs: seq<Job>) returns (joined: seq<Job>)
    ensures joined == jobs
  {
    joined := [];
    for k := 0 to |jobs|
      invariant joined == jobs[..k]
    {
      joined := joined + [jobs[k]];
    }
    assert jobs[..|jobs|] == jobs;
  }

  /** `main()`: the page loop, then the joins.  At most `fuel` pages are
      fetched. */
  method Execute(argv: seq<string>, existing: set<string>, fetch: string -> seq<Line>, fuel: nat) returns (r: Outcome)
    ensures r == Run(argv, existing, fetch, fuel)
  {
    var img := new ImageHtmlParser();
    var url := new UrlHtmlParser();
    if |argv| < 2 {
      return Crashed(IndexError, [], []);
    }
    url.SetNext(argv[1]);
    var folder := FolderName(url.next);
    if folder.Failure? {
      return Crashed(folder.error, [], []);
    }
    if folder.value in existing {
      return FolderExists(folder.value);
    }
    ghost var total := Walk(fetch, argv[1], [], fuel);
    var visited: seq<string> := [];
    var pages: nat := 0;
    var stop := false;
    while !stop
      invariant pages <= fuel && |visited| == pages
      invariant !stop ==> total == var w := Walk(fetch, url.next, img.jobs, fuel - pages); w.(visited := visited + w.visited)
      invariant stop ==> total == Walked(visited, img.jobs, None, true)
      decreases fuel - pages, if stop then 0 else 1
    {
      if pages == fuel {
        return OutOfFuel(folder.value, visited);
      }
      ghost var next0, jobs0, visited0 := url.next, img.jobs, visited;
      var lines := fetch(url.next);
      visited := visited + [url.next];
      pages := pages + 1;
      var base := ImageBase(url.next);
      if base.Failure? {
        return Crashed(base.error, visited, img.jobs);
      }
      img.SetFilename(base.value);
      var err;
      stop, err := ScanLines(img, url, lines);
      if err.Some? {
        return Crashed(err.value, visited, img.jobs);
      }
      if !stop {
        var w := Walk(fetch, url.next, img.jobs, fuel - pages);
        assert visited0 + ([next0] + w.visited) == visited + w.visited;
      }
    }
    var joined := JoinAll(img.jobs);
    return Finished(folder.value, visited, joined);
  }
}
