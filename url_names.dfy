/** The names `antenati.py` derives from a page URL: the folder the images go
    into, and the file name each page image is saved under.  Both come from
    `re.split('[_/?.]', url)`, which cuts the URL at every occurrence of one of
    the four separator characters and keeps the empty tokens between adjacent
    separators. */
module UrlNames {
  import opened Wrappers

  /** The character class `[_/?.]`. */
  predicate IsSeparator(c: char) {
    c == '_' || c == '/' || c == '?' || c == '.'
  }

  /** A token of the split: it contains no separator. */
  predicate Clean(t: string) {
    forall j :: 0 <= j < |t| ==> !IsSeparator(t[j])
  }

  predicate AllClean(tokens: seq<string>) {
    forall i :: 0 <= i < |tokens| ==> Clean(tokens[i])
  }

  predicate AllSeparators(seps: string) {
    forall k :: 0 <= k < |seps| ==> IsSeparator(seps[k])
  }

  /** `re.split('[_/?.]', s)`: there is always at least one token. */
  function Split(s: string): (r: seq<string>)
    ensures |r| >= 1
  {
    if |s| == 0 then [""]
    else
      var rest := Split(s[1..]);
      if IsSeparator(s[0]) then [""] + rest
      else [[s[0]] + rest[0]] + rest[1..]
  }

  /** The separator characters of `s`, in order. */
  function Separators(s: string): string {
    if |s| == 0 then ""
    else (if IsSeparator(s[0]) then [s[0]] else "") + Separators(s[1..])
  }

  /** Glues tokens back together with the given separators between them. */
  function Rejoin(tokens: seq<string>, seps: string): string
    requires |tokens| == |seps| + 1
    decreases |seps|
  {
    if |seps| == 0 then tokens[0]
    else tokens[0] + [seps[0]] + Rejoin(tokens[1..], seps[1..])
  }

  /** Python's `sep.join(parts)`. */
  function Join(sep: string, parts: seq<string>): string
    decreases |parts|
  {
    if |parts| == 0 then ""
    else if |parts| == 1 then parts[0]
    else parts[0] + sep + Join(sep, parts[1..])
  }

  /** `s.replace('+', '_')`. */
  function ReplacePlus(s: string): (r: string)
    ensures |r| == |s|
    ensures forall i :: 0 <= i < |s| ==> r[i] == if s[i] == '+' then '_' else s[i]
  {
    if |s| == 0 then ""
    else [if s[0] == '+' then '_' else s[0]] + ReplacePlus(s[1..])
  }

  /** The folder name: tokens 10, 11 and 12 of the split, each with `+`
      replaced by `_`, joined by `_`; fewer than 13 tokens is an IndexError. */
  function FolderName(url: string): Result<string, Error> {
    var t := Split(url);
    if |t| <= 12 then Failure(IndexError)
    else Success(Join("_", [ReplacePlus(t[10]), ReplacePlus(t[11]), ReplacePlus(t[12])]))
  }

  /** The argument `main` passes to `set_filename`: tokens 13, 14 and 15 of
      the split, joined by `_`; fewer than 16 tokens is an IndexError. */
  function ImageBase(url: string): Result<string, Error> {
    var t := Split(url);
    if |t| <= 15 then Failure(IndexError)
    else Success(t[13] + "_" + t[14] + "_" + t[15])
  }

  /** `ImageHTMLParser.set_filename`: the name a page image is saved under. */
  function ImageFileName(name: string): string {
    "img_archive_" + name + ".jpg"
  }

  // ---------------------------------------------------------------------
  // The split, characterised: its tokens and the separators between them
  // are the unique decomposition of the input into separator-free tokens.
  // ---------------------------------------------------------------------

  lemma RejoinPrepend(t: string, tokens: seq<string>, seps: string)
    requires |tokens| == |seps| + 1
    ensures Rejoin([t + tokens[0]] + tokens[1..], seps) == t + Rejoin(tokens, seps)
  {
    var ts := [t + tokens[0]] + tokens[1..];
    assert ts[1..] == tokens[1..];
  }

  /** Splitting and rejoining with the separators found gives the input back,
      and no token contains a separator. */
  lemma {:induction false} SplitRoundTrip(s: string)
    ensures |Split(s)| == |Separators(s)| + 1
    ensures AllClean(Split(s))
    ensures AllSeparators(Separators(s))
    ensures Rejoin(Split(s), Separators(s)) == s
  {
    if |s| > 0 {
      SplitRoundTrip(s[1..]);
      var rest, seps := Split(s[1..]), Separators(s[1..]);
      if IsSeparator(s[0]) {
        assert Separators(s) == [s[0]] + seps;
        assert ([""] + rest)[1..] == rest;
        assert s == [s[0]] + s[1..];
      } else {
        assert Separators(s) == seps;
        RejoinPrepend([s[0]], rest, seps);
        assert ([s[0]] + rest[0]) == [s[0]] + rest[0];
        assert s == [s[0]] + s[1..];
        forall i | 0 <= i < |Split(s)| ensures Clean(Split(s)[i]) {
          if i > 0 {
            assert Split(s)[i] == rest[i];
          } else {
            assert Split(s)[0] == [s[0]] + rest[0];
            assert Clean(rest[0]);
          }
        }
      }
    }
  }

  /** A separator-free prefix is glued onto the first token. */
  lemma {:induction false} SplitCleanPrefix(t: string, u: string)
    requires Clean(t)
    ensures Split(t + u) == [t + Split(u)[0]] + Split(u)[1..]
    ensures Separators(t + u) == Separators(u)
  {
    if |t| == 0 {
      assert t + u == u;
      assert t + Split(u)[0] == Split(u)[0];
      assert Split(u) == [Split(u)[0]] + Split(u)[1..];
    } else {
      assert (t + u)[0] == t[0];
      assert (t + u)[1..] == t[1..] + u;
      assert Clean(t[1..]) by {
        forall j | 0 <= j < |t[1..]| ensures !IsSeparator(t[1..][j]) {
          assert t[1..][j] == t[j + 1];
        }
      }
      SplitCleanPrefix(t[1..], u);
      assert [t[0]] + (t[1..] + Split(u)[0]) == t + Split(u)[0];
    }
  }

  /** A leading separator starts an empty token. */
  lemma SplitSeparatorPrefix(c: char, r: string)
    requires IsSeparator(c)
    ensures Split([c] + r) == [""] + Split(r)
    ensures Separators([c] + r) == [c] + Separators(r)
  {
    var u := [c] + r;
    assert u[0] == c && u[1..] == r;
  }

  lemma TailsStayClean(tokens: seq<string>, seps: string)
    requires |tokens| == |seps| + 1 && |seps| > 0
    requires AllClean(tokens) && AllSeparators(seps)
    ensures AllClean(tokens[1..]) && AllSeparators(seps[1..])
  {
    forall i | 0 <= i < |tokens[1..]| ensures Clean(tokens[1..][i]) { assert tokens[1..][i] == tokens[i + 1]; }
    forall k | 0 <= k < |seps[1..]| ensures IsSeparator(seps[1..][k]) { assert seps[1..][k] == seps[k + 1]; }
  }

  /** The converse of the round trip: any decomposition of a string into
      separator-free tokens with separators between them is the split. */
  lemma {:induction false} SplitUnique(tokens: seq<string>, seps: string)
    requires |tokens| == |seps| + 1
    requires AllClean(tokens) && AllSeparators(seps)
    ensures Split(Rejoin(tokens, seps)) == tokens
    ensures Separators(Rejoin(tokens, seps)) == seps
    decreases |seps|
  {
    var t := tokens[0];
    assert Clean(t);
    assert t + "" == t;
    if |seps| == 0 {
      SplitCleanPrefix(t, "");
      assert tokens == [t];
    } else {
      var tail := tokens[1..];
      TailsStayClean(tokens, seps);
      SplitUnique(tail, seps[1..]);
      var r := Rejoin(tail, seps[1..]);
      SplitSeparatorPrefix(seps[0], r);
      SplitCleanPrefix(t, [seps[0]] + r);
      assert Rejoin(tokens, seps) == t + ([seps[0]] + r);
      assert [t] + tail == tokens;
      assert [seps[0]] + seps[1..] == seps;
    }
  }

  /** Both directions together: `tokens` and `seps` are the split of `s` and
      its separators exactly when they decompose `s` into separator-free
      tokens. */
  lemma SplitCharacterised(s: string, tokens: seq<string>, seps: string)
    ensures (tokens == Split(s) && seps == Separators(s)) <==>
            (|tokens| == |seps| + 1 && AllClean(tokens) && AllSeparators(seps) && Rejoin(tokens, seps) == s)
  {
    SplitRoundTrip(s);
    if |tokens| == |seps| + 1 && AllClean(tokens) && AllSeparators(seps) && Rejoin(tokens, seps) == s {
      SplitUnique(tokens, seps);
    }
  }

  // ---------------------------------------------------------------------
  // The folder name
  // ---------------------------------------------------------------------

  /** How many times `c` occurs in `s`. */
  function Occurrences(s: string, c: char): nat
    decreases |s|
  {
    if |s| == 0 then 0 else (if s[0] == c then 1 else 0) + Occurrences(s[1..], c)
  }

  lemma {:induction false} OccurrencesAppend(a: string, b: string, c: char)
    ensures Occurrences(a + b, c) == Occurrences(a, c) + Occurrences(b, c)
    decreases |a|
  {
    if |a| == 0 {
      assert a + b == b;
    } else {
      assert (a + b)[0] == a[0] && (a + b)[1..] == a[1..] + b;
      OccurrencesAppend(a[1..], b, c);
    }
  }

  /** Occurrences in `a + "_" + b + "_" + d`. */
  lemma OccurrencesJoined(a: string, b: string, d: string, c: char)
    ensures Occurrences(a + "_" + b + "_" + d, c) ==
      Occurrences(a, c) + Occurrences(b, c) + Occurrences(d, c) + (if c == '_' then 2 else 0)
  {
    OccurrencesAppend(a, "_", c);
    OccurrencesAppend(a + "_", b, c);
    OccurrencesAppend(a + "_" + b, "_", c);
    OccurrencesAppend(a + "_" + b + "_", d, c);
    assert Occurrences("_", c) == if c == '_' then 1 else 0 by {
      assert "_"[1..] == "";
    }
  }

  /** Replacing `+` by `_` moves every `+` into the `_` count and leaves
      every other character's count alone. */
  lemma {:induction false} ReplacePlusCounts(s: string, c: char)
    ensures Occurrences(ReplacePlus(s), c) ==
      if c == '+' then 0
      else if c == '_' then Occurrences(s, '_') + Occurrences(s, '+')
      else Occurrences(s, c)
    decreases |s|
  {
    if |s| > 0 {
      ReplacePlusCounts(s[1..], c);
      if c == '_' {
        ReplacePlusCounts(s[1..], '+');
      }
      var r := ReplacePlus(s);
      assert r[0] == (if s[0] == '+' then '_' else s[0]);
      assert r[1..] == ReplacePlus(s[1..]);
    }
  }

  /** A token of the split has no separator, so none of them occurs in it. */
  lemma {:induction false} CleanHasNoSeparator(t: string, c: char)
    requires Clean(t) && IsSeparator(c)
    ensures Occurrences(t, c) == 0
    decreases |t|
  {
    if |t| > 0 {
      assert Clean(t[1..]) by {
        forall j | 0 <= j < |t[1..]| ensures !IsSeparator(t[1..][j]) {
          assert t[1..][j] == t[j + 1];
        }
      }
      CleanHasNoSeparator(t[1..], c);
    }
  }

  /** The folder name exists exactly when the URL splits into at least 13
      tokens, that is, has at least 12 separators; it is then tokens 10, 11
      and 12 with `+` replaced, joined by `_`. */
  lemma FolderNameDefined(url: string)
    ensures FolderName(url).Success? <==> |Separators(url)| >= 12
    ensures FolderName(url).Failure? ==> FolderName(url).error == IndexError
    ensures FolderName(url).Success? ==>
      var t := Split(url);
      FolderName(url).value == ReplacePlus(t[10]) + "_" + ReplacePlus(t[11]) + "_" + ReplacePlus(t[12])
  {
    SplitRoundTrip(url);
    var t := Split(url);
    if |t| > 12 {
      JoinThree("_", ReplacePlus(t[10]), ReplacePlus(t[11]), ReplacePlus(t[12]));
    }
  }

  lemma JoinThree(sep: string, a: string, b: string, c: string)
    ensures Join(sep, [a, b, c]) == a + sep + b + sep + c
  {
    var parts := [a, b, c];
    assert parts[1..] == [b, c] && parts[1..][1..] == [c];
    assert Join(sep, [c]) == c;
    assert Join(sep, [b, c]) == b + sep + c;
  }

  /** The folder name holds no `+`, `/`, `?` or `.`, and exactly two `_`
      more than the `+` signs of the three tokens it is made of. */
  lemma FolderNameCharacters(url: string)
    requires FolderName(url).Success?
    ensures var f := FolderName(url).value;
      Occurrences(f, '+') == 0 && Occurrences(f, '/') == 0 &&
      Occurrences(f, '?') == 0 && Occurrences(f, '.') == 0
    ensures var t := Split(url);
      Occurrences(FolderName(url).value, '_') ==
        2 + Occurrences(t[10], '+') + Occurrences(t[11], '+') + Occurrences(t[12], '+')
  {
    SplitRoundTrip(url);
    FolderNameDefined(url);
    var t := Split(url);
    var a, b, d := t[10], t[11], t[12];
    assert Clean(a) && Clean(b) && Clean(d);
    forall c | c in {'+', '/', '?', '.', '_'}
      ensures Occurrences(FolderName(url).value, c) ==
        (if c == '_' then 2 + Occurrences(a, '+') + Occurrences(b, '+') + Occurrences(d, '+') else 0)
    {
      ReplacePlusCounts(a, c); ReplacePlusCounts(b, c); ReplacePlusCounts(d, c);
      OccurrencesJoined(ReplacePlus(a), ReplacePlus(b), ReplacePlus(d), c);
      if c != '+' {
        CleanHasNoSeparator(a, c); CleanHasNoSeparator(b, c); CleanHasNoSeparator(d, c);
      }
    }
  }

  /** When the three tokens hold no `+`, splitting the folder name gives
      them back. */
  lemma FolderNameSplitsBack(url: string)
    requires FolderName(url).Success?
    requires var t := Split(url); Occurrences(t[10], '+') == 0 && Occurrences(t[11], '+') == 0 && Occurrences(t[12], '+') == 0
    ensures var t := Split(url); Split(FolderName(url).value) == [t[10], t[11], t[12]]
  {
    SplitRoundTrip(url);
    FolderNameDefined(url);
    var t := Split(url);
    NoPlusUnchanged(t[10]); NoPlusUnchanged(t[11]); NoPlusUnchanged(t[12]);
    ThreeTokensSplitBack(t[10], t[11], t[12]);
  }

  lemma {:induction false} NoPlusUnchanged(s: string)
    requires Occurrences(s, '+') == 0
    ensures ReplacePlus(s) == s
    decreases |s|
  {
    if |s| > 0 {
      NoPlusUnchanged(s[1..]);
      assert s == [s[0]] + s[1..];
    }
  }

  lemma ThreeTokensSplitBack(a: string, b: string, c: string)
    requires Clean(a) && Clean(b) && Clean(c)
    ensures Split(a + "_" + b + "_" + c) == [a, b, c]
  {
    var tokens, seps := [a, b, c], "__";
    assert AllClean(tokens);
    SplitUnique(tokens, seps);
    assert tokens[1..] == [b, c] && tokens[1..][1..] == [c];
    assert Rejoin(tokens, seps) == a + "_" + b + "_" + c;
  }

  // ---------------------------------------------------------------------
  // The image file name
  // ---------------------------------------------------------------------

  /** The image base name exists exactly when the URL has at least 16
      tokens, that is, at least 15 separators. */
  lemma ImageBaseDefined(url: string)
    ensures ImageBase(url).Success? <==> |Separators(url)| >= 15
    ensures ImageBase(url).Failure? ==> ImageBase(url).error == IndexError
  {
    SplitRoundTrip(url);
  }

  /** The saved file name is `img_archive_`, then tokens 13, 14 and 15 joined
      by `_`, then `.jpg`; the middle has exactly two `_` and no `/`, so the
      file lands directly in the current folder, and splitting the middle
      gives the three tokens back. */
  lemma ImageFileNameShape(url: string)
    requires ImageBase(url).Success?
    ensures var t := Split(url); var name := ImageFileName(ImageBase(url).value);
      var mid := t[13] + "_" + t[14] + "_" + t[15];
      |name| == 16 + |mid| &&
      name[..12] == "img_archive_" && name[|name| - 4..] == ".jpg" &&
      name[12..|name| - 4] == mid &&
      Occurrences(mid, '_') == 2 && Occurrences(mid, '/') == 0 &&
      Split(mid) == [t[13], t[14], t[15]]
  {
    SplitRoundTrip(url);
    var t := Split(url);
    var a, b, d := t[13], t[14], t[15];
    assert Clean(a) && Clean(b) && Clean(d);
    var mid := a + "_" + b + "_" + d;
    CleanHasNoSeparator(a, '_'); CleanHasNoSeparator(b, '_'); CleanHasNoSeparator(d, '_');
    CleanHasNoSeparator(a, '/'); CleanHasNoSeparator(b, '/'); CleanHasNoSeparator(d, '/');
    OccurrencesJoined(a, b, d, '_');
    OccurrencesJoined(a, b, d, '/');
    ThreeTokensSplitBack(a, b, d);
    var name := ImageFileName(mid);
    assert name == "img_archive_" + mid + ".jpg";
  }
}
