/** The two `HTMLParser` subclasses of `antenati.py`.  The HTML tokenizer of
    Python's library is not modelled: a fed line is given as the start tags
    it reports, each a name and a list of attributes.  An attribute written
    without a value reports the value `None`. */
module HtmlParsers {
  import opened Wrappers
  import UrlNames

  datatype Attr = Attr(name: string, value: Option<string>)

  datatype Tag = Tag(name: string, attrs: seq<Attr>)

  /** A started download thread, modelled by the arguments it was given. */
  datatype Job = Job(url: Option<string>, filename: Option<string>)

  /** What feeding a sequence of tags leaves behind: the parser's state and
      the exception that stopped the feed, if one did. */
  datatype Fed<S> = Fed(state: S, error: Option<Error>)

  /** The host `UrlHTMLParser` prefixes to the link of the next page. */
  const Host := "http://dl.antenati.san.beniculturali.it"

  // ---------------------------------------------------------------------
  // ImageHTMLParser
  // ---------------------------------------------------------------------

  /** `ImageHTMLParser.handle_starttag`: an `a` tag starts one download of
      its first attribute's value into the current file name; `attrs[0]` on
      an `a` tag without attributes is an IndexError. */
  function ImageStep(filename: Option<string>, jobs: seq<Job>, tag: Tag): Result<seq<Job>, Error> {
    if tag.name != "a" then Success(jobs)
    else if |tag.attrs| == 0 then Failure(IndexError)
    else Success(jobs + [Job(tag.attrs[0].value, filename)])
  }

  /** Feeding tags one after the other; an exception ends the feed. */
  function ImageFeed(filename: Option<string>, jobs: seq<Job>, tags: seq<Tag>): Fed<seq<Job>>
    decreases |tags|
  {
    if |tags| == 0 then Fed(jobs, None)
    else match ImageStep(filename, jobs, tags[0])
      case Failure(e) => Fed(jobs, Some(e))
      case Success(jobs') => ImageFeed(filename, jobs', tags[1..])
  }

  /** The `a` tags among `tags`, in order. */
  function Anchors(tags: seq<Tag>): (r: seq<Tag>)
    ensures |r| <= |tags|
  {
    if |tags| == 0 then []
    else (if tags[0].name == "a" then [tags[0]] else []) + Anchors(tags[1..])
  }

  /** The job each anchor starts, independent of any parser state. */
  function JobsOf(filename: Option<string>, anchors: seq<Tag>): (r: seq<Job>)
    requires forall i :: 0 <= i < |anchors| ==> |anchors[i].attrs| > 0
    ensures |r| == |anchors|
  {
    if |anchors| == 0 then [] else [Job(anchors[0].attrs[0].value, filename)] + JobsOf(filename, anchors[1..])
  }

  /** The `i`-th job is started by the `i`-th anchor. */
  lemma {:induction false} JobsOfAt(filename: Option<string>, anchors: seq<Tag>, i: nat)
    requires forall k :: 0 <= k < |anchors| ==> |anchors[k].attrs| > 0
    requires i < |anchors|
    ensures JobsOf(filename, anchors)[i] == Job(anchors[i].attrs[0].value, filename)
    decreases i
  {
    if i > 0 {
      JobsOfAt(filename, anchors[1..], i - 1);
    }
  }

  predicate AnchorsHaveAttrs(tags: seq<Tag>) {
    forall i :: 0 <= i < |Anchors(tags)| ==> |Anchors(tags)[i].attrs| > 0
  }

  lemma AnchorsCons(t: Tag, rest: seq<Tag>)
    ensures Anchors([t] + rest) == (if t.name == "a" then [t] else []) + Anchors(rest)
    ensures AnchorsHaveAttrs([t] + rest) <==> (t.name == "a" ==> |t.attrs| > 0) && AnchorsHaveAttrs(rest)
  {
    var tags := [t] + rest;
    assert tags[0] == t && tags[1..] == rest;
    var h := if t.name == "a" then [t] else [];
    if AnchorsHaveAttrs(tags) {
      forall i | 0 <= i < |Anchors(rest)| ensures |Anchors(rest)[i].attrs| > 0 {
        assert Anchors(rest)[i] == Anchors(tags)[i + |h|];
      }
      if t.name == "a" { assert Anchors(tags)[0] == t; }
    }
  }

  /** Feeding tags to the image parser succeeds exactly when every `a` tag
      has an attribute; otherwise it raises IndexError. */
  lemma {:induction false} ImageFeedSucceeds(filename: Option<string>, jobs: seq<Job>, tags: seq<Tag>)
    ensures var r := ImageFeed(filename, jobs, tags);
      && (r.error.None? <==> AnchorsHaveAttrs(tags))
      && (r.error.Some? ==> r.error == Some(IndexError))
    decreases |tags|
  {
    if |tags| > 0 {
      var t, rest := tags[0], tags[1..];
      assert tags == [t] + rest;
      AnchorsCons(t, rest);
      match ImageStep(filename, jobs, t)
      case Failure(e) =>
      case Success(jobs') => ImageFeedSucceeds(filename, jobs', rest);
    }
  }

  /** Feeding never removes an earlier job and adds at most one job per `a`
      tag. */
  lemma {:induction false} ImageFeedKeepsJobs(filename: Option<string>, jobs: seq<Job>, tags: seq<Tag>)
    ensures var r := ImageFeed(filename, jobs, tags);
      |jobs| <= |r.state| <= |jobs| + |Anchors(tags)| && r.state[..|jobs|] == jobs
    decreases |tags|
  {
    if |tags| > 0 {
      var t, rest := tags[0], tags[1..];
      assert tags == [t] + rest;
      AnchorsCons(t, rest);
      match ImageStep(filename, jobs, t)
      case Failure(e) =>
      case Success(jobs') =>
        ImageFeedKeepsJobs(filename, jobs', rest);
        var r := ImageFeed(filename, jobs', rest);
        assert r.state[..|jobs|] == r.state[..|jobs'|][..|jobs|];
    }
  }

  /** A successful feed appends exactly one job per `a` tag, in order, each
      with the tag's first attribute value and the current file name. */
  lemma {:induction false} ImageFeedJobs(filename: Option<string>, jobs: seq<Job>, tags: seq<Tag>)
    requires AnchorsHaveAttrs(tags)
    ensures ImageFeed(filename, jobs, tags) == Fed(jobs + JobsOf(filename, Anchors(tags)), None)
    decreases |tags|
  {
    if |tags| == 0 {
      assert jobs + [] == jobs;
    } else {
      var t, rest := tags[0], tags[1..];
      assert tags == [t] + rest;
      AnchorsCons(t, rest);
      if t.name == "a" {
        var j := Job(t.attrs[0].value, filename);
        assert ImageFeed(filename, jobs, tags) == ImageFeed(filename, jobs + [j], rest);
        ImageFeedJobs(filename, jobs + [j], rest);
        var anchors := Anchors(tags);
        assert anchors == [t] + Anchors(rest);
        JobsOfCons(filename, anchors);
        assert jobs + [j] + JobsOf(filename, Anchors(rest)) == jobs + ([j] + JobsOf(filename, Anchors(rest)));
      } else {
        assert ImageFeed(filename, jobs, tags) == ImageFeed(filename, jobs, rest);
        ImageFeedJobs(filename, jobs, rest);
        assert Anchors(tags) == Anchors(rest);
      }
    }
  }

  lemma JobsOfCons(filename: Option<string>, anchors: seq<Tag>)
    requires |anchors| > 0
    requires forall i :: 0 <= i < |anchors| ==> |anchors[i].attrs| > 0
    ensures JobsOf(filename, anchors) == [Job(anchors[0].attrs[0].value, filename)] + JobsOf(filename, anchors[1..])
  {
  }

  /** Feeding two pieces one after the other is feeding their concatenation. */
  lemma {:induction false} ImageFeedAppend(filename: Option<string>, jobs: seq<Job>, a: seq<Tag>, b: seq<Tag>)
    ensures ImageFeed(filename, jobs, a + b) ==
      var x := ImageFeed(filename, jobs, a);
      if x.error.Some? then x else ImageFeed(filename, x.state, b)
    decreases |a|
  {
    if |a| == 0 {
      assert a + b == b;
    } else {
      assert (a + b)[0] == a[0] && (a + b)[1..] == a[1..] + b;
      match ImageStep(filename, jobs, a[0])
      case Failure(e) =>
      case Success(jobs') => ImageFeedAppend(filename, jobs', a[1..], b);
    }
  }

  class ImageHtmlParser {
    var filename: Option<string>
    /** The started downloads; in the source a list shared by the class. */
    var jobs: seq<Job>

    constructor ()
      ensures filename == None && jobs == []
    {
      filename := None;
      jobs := [];
    }

    method SetFilename(name: string)
      modifies this`filename
      ensures filename == Some(UrlNames.ImageFileName(name))
    {
      filename := Some(UrlNames.ImageFileName(name));
    }

    method HandleStartTag(tag: Tag) returns (err: Option<Error>)
      modifies this`jobs
      ensures ImageStep(filename, old(jobs), tag) == if err.None? then Success(jobs) else Failure(err.value)
      ensures err.Some? ==> jobs == old(jobs)
    {
      err := None;
      if tag.name == "a" {
        if |tag.attrs| == 0 {
          err := Some(IndexError);
          return;
        }
        var url := tag.attrs[0].value;
        jobs := jobs + [Job(url, filename)];
      }
    }

    /** `feed`: hands every start tag of the fed text to `HandleStartTag`,
        until one raises. */
    method Feed(tags: seq<Tag>) returns (err: Option<Error>)
      modifies this`jobs
      ensures ImageFeed(filename, old(jobs), tags) == Fed(jobs, err)
    {
      err := None;
      var i := 0;
      while i < |tags| && err.None?
        invariant 0 <= i <= |tags|
        invariant ImageFeed(filename, old(jobs), tags) ==
          if err.None? then ImageFeed(filename, jobs, tags[i..]) else Fed(jobs, err)
      {
        assert tags[i..][0] == tags[i] && tags[i..][1..] == tags[i + 1..];
        err := HandleStartTag(tags[i]);
        i := i + 1;
      }
      if err.None? {
        assert tags[i..] == [];
      }
    }
  }

  // ---------------------------------------------------------------------
  // UrlHTMLParser
  // ---------------------------------------------------------------------

  /** An `a` tag whose second attribute has the value `next`. */
  predicate IsNextAnchor(tag: Tag) {
    tag.name == "a" && |tag.attrs| >= 2 && tag.attrs[1].value == Some("next")
  }

  /** `UrlHTMLParser.handle_starttag`: on an `a` tag, `attrs[1]` must exist
      (IndexError); when its value is `next`, the first attribute's value is
      appended to the host (TypeError when that value is `None`). */
  function UrlStep(next: string, tag: Tag): Result<string, Error> {
    if tag.name != "a" then Success(next)
    else if |tag.attrs| < 2 then Failure(IndexError)
    else if tag.attrs[1].value != Some("next") then Success(next)
    else if tag.attrs[0].value.None? then Failure(TypeError)
    else Success(Host + tag.attrs[0].value.value)
  }

  function UrlFeed(next: string, tags: seq<Tag>): Fed<string>
    decreases |tags|
  {
    if |tags| == 0 then Fed(next, None)
    else match UrlStep(next, tags[0])
      case Failure(e) => Fed(next, Some(e))
      case Success(next') => UrlFeed(next', tags[1..])
  }

  /** One tag changes `next` only when it is a `next` anchor, and then to the
      host followed by its first attribute's value; every other tag either
      leaves `next` as it was or raises. */
  lemma UrlStepChangesOnlyOnNextAnchor(next: string, tag: Tag)
    ensures !IsNextAnchor(tag) ==> UrlStep(next, tag) in {Success(next), Failure(IndexError)}
    ensures !IsNextAnchor(tag) && UrlStep(next, tag).Failure? ==> tag.name == "a" && |tag.attrs| < 2
    ensures IsNextAnchor(tag) ==>
      UrlStep(next, tag) == if tag.attrs[0].value.Some? then Success(Host + tag.attrs[0].value.value) else Failure(TypeError)
  {
  }

  /** The tags the URL parser can fail on: an `a` tag with fewer than two
      attributes, or a `next` anchor whose first attribute has no value. */
  predicate UrlTagOk(tag: Tag) {
    tag.name == "a" ==> |tag.attrs| >= 2 && (tag.attrs[1].value == Some("next") ==> tag.attrs[0].value.Some?)
  }

  predicate UrlTagsOk(tags: seq<Tag>) {
    forall i :: 0 <= i < |tags| ==> UrlTagOk(tags[i])
  }

  /** The last `next` anchor among `tags`, searched from the end. */
  function LastNextAnchor(tags: seq<Tag>): (r: Option<Tag>)
    ensures r.Some? ==> IsNextAnchor(r.value)
    decreases |tags|
  {
    if |tags| == 0 then None
    else if IsNextAnchor(tags[|tags| - 1]) then Some(tags[|tags| - 1])
    else LastNextAnchor(tags[..|tags| - 1])
  }

  lemma {:induction false} LastNextAnchorCons(t: Tag, rest: seq<Tag>)
    ensures LastNextAnchor([t] + rest) ==
      if LastNextAnchor(rest).Some? then LastNextAnchor(rest)
      else if IsNextAnchor(t) then Some(t) else None
    decreases |rest|
  {
    var ts := [t] + rest;
    if |rest| == 0 {
      assert ts[..0] == [];
    } else {
      assert ts[|ts| - 1] == rest[|rest| - 1];
      assert ts[..|ts| - 1] == [t] + rest[..|rest| - 1];
      LastNextAnchorCons(t, rest[..|rest| - 1]);
    }
  }

  /** Feeding tags to the URL parser succeeds exactly when every tag is one it
      accepts; `next` is then the host followed by the link of the LAST
      `next` anchor, or unchanged when there is none. */
  lemma {:induction false} UrlFeedSpec(next: string, tags: seq<Tag>)
    ensures var r := UrlFeed(next, tags);
      && (r.error.None? <==> UrlTagsOk(tags))
      && (r.error.None? ==>
            match LastNextAnchor(tags)
            case None => r.state == next
            case Some(t) => t.attrs[0].value.Some? && r.state == Host + t.attrs[0].value.value)
    decreases |tags|
  {
    if |tags| > 0 {
      var t, rest := tags[0], tags[1..];
      LastNextAnchorCons(t, rest);
      assert tags == [t] + rest;
      assert UrlTagsOk(tags) <==> UrlTagOk(t) && UrlTagsOk(rest) by {
        if UrlTagOk(t) && UrlTagsOk(rest) {
          forall i | 0 <= i < |tags| ensures UrlTagOk(tags[i]) {
            if i > 0 { assert tags[i] == rest[i - 1]; }
          }
        }
      }
      match UrlStep(next, t)
      case Failure(e) =>
      case Success(next') =>
        UrlFeedSpec(next', rest);
    }
  }

  /** Feeding two pieces one after the other is feeding their concatenation. */
  lemma {:induction false} UrlFeedAppend(next: string, a: seq<Tag>, b: seq<Tag>)
    ensures UrlFeed(next, a + b) ==
      var x := UrlFeed(next, a);
      if x.error.Some? then x else UrlFeed(x.state, b)
    decreases |a|
  {
    if |a| == 0 {
      assert a + b == b;
    } else {
      assert (a + b)[0] == a[0] && (a + b)[1..] == a[1..] + b;
      match UrlStep(next, a[0])
      case Failure(e) =>
      case Success(next') => UrlFeedAppend(next', a[1..], b);
    }
  }

  class UrlHtmlParser {
    var next: string

    constructor ()
      ensures next == ""
    {
      next := "";
    }

    method SetNext(name: string)
      modifies this
      ensures next == name
    {
      next := name;
    }

    method HandleStartTag(tag: Tag) returns (err: Option<Error>)
      modifies this
      ensures UrlStep(old(next), tag) == if err.None? then Success(next) else Failure(err.value)
      ensures err.Some? ==> next == old(next)
    {
      err := None;
      if tag.name == "a" {
        if |tag.attrs| < 2 {
          err := Some(IndexError);
          return;
        }
        if tag.attrs[1].value == Some("next") {
          if tag.attrs[0].value.None? {
            err := Some(TypeError);
            return;
          }
          SetNext(Host + tag.attrs[0].value.value);
        }
      }
    }

    method Feed(tags: seq<Tag>) returns (err: Option<Error>)
      modifies this
      ensures UrlFeed(old(next), tags) == Fed(next, err)
    {
      err := None;
      var i := 0;
      while i < |tags| && err.None?
        invariant 0 <= i <= |tags|
        invariant UrlFeed(old(next), tags) ==
          if err.None? then UrlFeed(next, tags[i..]) else Fed(next, err)
      {
        assert tags[i..][0] == tags[i] && tags[i..][1..] == tags[i + 1..];
        err := HandleStartTag(tags[i]);
        i := i + 1;
      }
      if err.None? {
        assert tags[i..] == [];
      }
    }
  }
}
