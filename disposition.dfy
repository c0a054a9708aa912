/**
 * The search `re.search(r'filename="?([^"]+)"?', header)` and its first group.
 *
 * At a start index the pattern needs the literal `filename=`; the optional `"` is taken
 * when present, and the group is then the longest run of characters other than `"`,
 * which must be non-empty (when the quote was taken and nothing follows it, giving the
 * quote back does not help, since the group cannot start with `"`). The trailing `"?`
 * always matches. The search returns the match with the smallest start index.
 * Matching is case-sensitive.
 */
module Disposition {
  import opened Wrappers

  const KEY := "filename="
  const QUOTE := '"'

  /** The longest prefix of `s` without a `"`: what `[^"]+` consumes, greedily. */
  function QuoteFreePrefix(s: string): (run: string)
    ensures |run| <= |s| && run == s[..|run|]
    ensures QUOTE !in run
    ensures |run| == |s| || s[|run|] == QUOTE
  {
    if |s| == 0 || s[0] == QUOTE then "" else [s[0]] + QuoteFreePrefix(s[1..])
  }

  /** The group captured by a match that starts at index `i`, if the pattern matches there. */
  function MatchAt(s: string, i: nat): Option<string>
    requires i <= |s|
  {
    if i + |KEY| <= |s| && s[i..i + |KEY|] == KEY then
      var j := if i + |KEY| < |s| && s[i + |KEY|] == QUOTE then i + |KEY| + 1 else i + |KEY|;
      var run := QuoteFreePrefix(s[j..]);
      if run == "" then None else Some(run)
    else
      None
  }

  /** The leftmost match at index `i` or later. */
  function SearchFrom(s: string, i: nat): Option<string>
    requires i <= |s|
    decreases |s| - i
  {
    if i == |s| then MatchAt(s, i)
    else match MatchAt(s, i)
      case Some(run) => Some(run)
      case None => SearchFrom(s, i + 1)
  }

  /** The `filename` parameter of a `Content-Disposition` value, as the script extracts it. */
  function FilenameParameter(header: string): (name: Option<string>)
    ensures name.Some? ==> name.value != "" && QUOTE !in name.value
  {
    SearchFromYieldsCapture(header, 0);
    SearchFrom(header, 0)
  }

  // ----- Declarative reading of the pattern -----

  /** `s` holds `KEY + open + run` at index `i`, and `run` stops at a `"` or at the end. */
  ghost predicate GroupAt(s: string, i: int, open: string, run: string) {
    var text := KEY + open + run;
    0 <= i && i + |text| <= |s| && s[i..i + |text|] == text
    && (i + |text| == |s| || s[i + |text|] == QUOTE)
  }

  /** The pattern, started at index `i`, matches with `run` as its group. */
  ghost predicate CapturedAt(s: string, i: int, run: string) {
    run != "" && QUOTE !in run && (GroupAt(s, i, "", run) || GroupAt(s, i, [QUOTE], run))
  }

  /** No match of the pattern starts in the index range [from, to). */
  ghost predicate NoMatchBetween(s: string, from: int, to: int) {
    forall k, run :: from <= k < to ==> !CapturedAt(s, k, run)
  }

  lemma QuoteFreePrefixUnique(s: string, run: string)
    requires |run| <= |s| && run == s[..|run|]
    requires QUOTE !in run
    requires |run| == |s| || s[|run|] == QUOTE
    ensures QuoteFreePrefix(s) == run
  {
    var r := QuoteFreePrefix(s);
    if |r| != |run| {
      assert false;
    }
  }

  /** What `MatchAt` returns is exactly the group of the pattern at that index. */
  lemma MatchAtIff(s: string, i: nat, run: string)
    requires i <= |s|
    ensures MatchAt(s, i) == Some(run) <==> CapturedAt(s, i, run)
  {
    if MatchAt(s, i) == Some(run) {
      MatchAtYieldsCapture(s, i);
    }
    if CapturedAt(s, i, run) {
      CaptureYieldsMatchAt(s, i, run);
    }
  }

  lemma MatchAtYieldsCapture(s: string, i: nat)
    requires i <= |s|
    requires MatchAt(s, i).Some?
    ensures CapturedAt(s, i, MatchAt(s, i).value)
  {
    var run := MatchAt(s, i).value;
    var open := if i + |KEY| < |s| && s[i + |KEY|] == QUOTE then [QUOTE] else "";
    var j := i + |KEY| + |open|;
    assert run == QuoteFreePrefix(s[j..]);
    assert s[j..][..|run|] == s[j..j + |run|];
    GroupFromParts(s, i, open, run);
  }

  /** `GroupAt` from its three pieces, each given as a slice of `s`. */
  lemma GroupFromParts(s: string, i: nat, open: string, run: string)
    requires i + |KEY| + |open| + |run| <= |s|
    requires s[i..i + |KEY|] == KEY
    requires s[i + |KEY|..i + |KEY| + |open|] == open
    requires s[i + |KEY| + |open|..i + |KEY| + |open| + |run|] == run
    requires var e := i + |KEY| + |open| + |run|; e == |s| || s[e] == QUOTE
    ensures GroupAt(s, i, open, run)
  {
    var e := i + |KEY| + |open| + |run|;
    assert s[i + |KEY|..e] == s[i + |KEY|..i + |KEY| + |open|] + s[i + |KEY| + |open|..e];
    assert s[i..e] == s[i..i + |KEY|] + s[i + |KEY|..e];
  }

  lemma CaptureYieldsMatchAt(s: string, i: nat, run: string)
    requires i <= |s|
    requires CapturedAt(s, i, run)
    ensures MatchAt(s, i) == Some(run)
  {
    if GroupAt(s, i, [QUOTE], run) {
      var text := KEY + [QUOTE] + run;
      var j := i + |KEY| + 1;
      assert s[i..i + |KEY|] == text[..|KEY|] == KEY;
      assert s[i + |KEY|] == text[|KEY|] == QUOTE;
      assert s[j..][..|run|] == text[|KEY| + 1..] == run;
      QuoteFreePrefixUnique(s[j..], run);
    } else {
      assert GroupAt(s, i, "", run);
      var text := KEY + "" + run;
      var j := i + |KEY|;
      assert s[i..i + |KEY|] == text[..|KEY|] == KEY;
      assert s[j] == text[|KEY|] == run[0] != QUOTE;
      assert s[j..][..|run|] == text[|KEY|..] == run;
      QuoteFreePrefixUnique(s[j..], run);
    }
  }

  /** `SearchFrom` returns the group of the leftmost match at or after `from`. */
  lemma {:induction false} SearchFromIff(s: string, from: nat, run: string)
    requires from <= |s|
    ensures SearchFrom(s, from) == Some(run)
        <==> exists i :: from <= i <= |s| && CapturedAt(s, i, run) && NoMatchBetween(s, from, i)
    decreases |s| - from
  {
    MatchAtIff(s, from, run);
    if SearchFrom(s, from) == Some(run) {
      SearchFromLeftmost(s, from);
      assert CapturedAt(s, from, run) || from < |s|;
    }
    if i :| from <= i <= |s| && CapturedAt(s, i, run) && NoMatchBetween(s, from, i) {
      if i == from {
        assert MatchAt(s, from) == Some(run);
      } else {
        NoMatchAtIndex(s, from);
        assert MatchAt(s, from) == None;
        SearchFromIff(s, from + 1, run);
        assert NoMatchBetween(s, from + 1, i);
      }
    }
  }

  /** The witness for the forward direction of `SearchFromIff`. */
  lemma {:induction false} SearchFromLeftmost(s: string, from: nat)
    requires from <= |s|
    requires SearchFrom(s, from).Some?
    ensures exists i :: from <= i <= |s| && CapturedAt(s, i, SearchFrom(s, from).value)
                        && NoMatchBetween(s, from, i)
    decreases |s| - from
  {
    var run := SearchFrom(s, from).value;
    if MatchAt(s, from).Some? {
      MatchAtYieldsCapture(s, from);
      assert CapturedAt(s, from, run) && NoMatchBetween(s, from, from);
    } else {
      SearchFromLeftmost(s, from + 1);
      var i :| from + 1 <= i <= |s| && CapturedAt(s, i, run) && NoMatchBetween(s, from + 1, i);
      forall k, r | from <= k < i ensures !CapturedAt(s, k, r) {
        if k == from && CapturedAt(s, k, r) {
          CaptureYieldsMatchAt(s, k, r);
        }
      }
      assert NoMatchBetween(s, from, i);
    }
  }

  /** No match starts at `i` whenever `MatchAt` finds none there. */
  lemma NoMatchAtIndex(s: string, i: nat)
    requires i <= |s|
    requires forall run :: !CapturedAt(s, i, run)
    ensures MatchAt(s, i) == None
  {
    if MatchAt(s, i).Some? {
      MatchAtYieldsCapture(s, i);
    }
  }

  lemma {:induction false} SearchFromYieldsCapture(s: string, from: nat)
    requires from <= |s|
    ensures SearchFrom(s, from).Some? ==> SearchFrom(s, from).value != "" && QUOTE !in SearchFrom(s, from).value
    decreases |s| - from
  {
    if from < |s| && MatchAt(s, from).None? {
      SearchFromYieldsCapture(s, from + 1);
    }
  }

  /** The parameter is found exactly when some index starts a match; it is then the leftmost one's group. */
  lemma FilenameParameterIsLeftmostMatch(header: string, run: string)
    ensures FilenameParameter(header) == Some(run)
        <==> exists i :: 0 <= i <= |header| && CapturedAt(header, i, run) && NoMatchBetween(header, 0, i)
  {
    SearchFromIff(header, 0, run);
  }

  /** No parameter is found exactly when the pattern matches at no index. */
  lemma FilenameParameterAbsent(header: string)
    ensures FilenameParameter(header) == None <==> NoMatchBetween(header, 0, |header| + 1)
  {
    if FilenameParameter(header).Some? {
      SearchFromLeftmost(header, 0);
    }
    if !NoMatchBetween(header, 0, |header| + 1) {
      var k, run :| 0 <= k < |header| + 1 && CapturedAt(header, k, run);
      var i := LeftmostIndex(header, k, run);
      var r :| CapturedAt(header, i, r) && NoMatchBetween(header, 0, i);
      SearchFromIff(header, 0, r);
    }
  }

  /** Below any match lies a leftmost one. */
  lemma {:induction false} LeftmostIndex(s: string, k: int, run: string) returns (i: int)
    requires 0 <= k <= |s| && CapturedAt(s, k, run)
    ensures 0 <= i <= k && NoMatchBetween(s, 0, i) && exists r :: CapturedAt(s, i, r)
    decreases k
  {
    if NoMatchBetween(s, 0, k) {
      i := k;
    } else {
      var k', run' :| 0 <= k' < k && CapturedAt(s, k', run');
      i := LeftmostIndex(s, k', run');
    }
  }

  /** A match needs the `=` of `filename=`: where no `=` can sit, no match starts. */
  lemma NoMatchWithoutEquals(s: string, from: int, to: int)
    requires forall j :: from + 8 <= j < to + 8 && 0 <= j < |s| ==> s[j] != '='
    ensures NoMatchBetween(s, from, to)
  {
    forall k, run | from <= k < to && CapturedAt(s, k, run) ensures false {
      EqualsAfterKey(s, k, run);
    }
  }

  lemma EqualsAfterKey(s: string, k: int, run: string)
    requires CapturedAt(s, k, run)
    ensures 0 <= k + 8 < |s| && s[k + 8] == '='
  {
    var open := if GroupAt(s, k, "", run) then "" else [QUOTE];
    assert GroupAt(s, k, open, run);
    assert s[k + 8] == (KEY + open + run)[8];
  }

  /** `filename="name"` after text without `=` yields `name`. */
  lemma QuotedFilename(prefix: string, name: string)
    requires '=' !in prefix
    requires name != "" && QUOTE !in name
    ensures FilenameParameter(prefix + KEY + [QUOTE] + name + [QUOTE]) == Some(name)
  {
    var s := prefix + KEY + [QUOTE] + name + [QUOTE];
    var i := |prefix|;
    var text := KEY + [QUOTE] + name;
    assert s == prefix + text + [QUOTE];
    assert s[i..i + |text|] == text;
    assert GroupAt(s, i, [QUOTE], name);
    forall j | 8 <= j < i + 8 && 0 <= j < |s| ensures s[j] != '=' {
      if j < i {
        assert s[j] == prefix[j];
      } else {
        assert s[j] == KEY[j - i];
      }
    }
    NoMatchWithoutEquals(s, 0, i);
    FilenameParameterIsLeftmostMatch(s, name);
  }

  /** `filename=value` after text without `=` yields the value up to the end of the header. */
  lemma UnquotedFilename(prefix: string, value: string)
    requires '=' !in prefix
    requires value != "" && QUOTE !in value
    ensures FilenameParameter(prefix + KEY + value) == Some(value)
  {
    var s := prefix + KEY + value;
    var i := |prefix|;
    var text := KEY + "" + value;
    assert s == prefix + text;
    assert s[i..i + |text|] == text;
    assert GroupAt(s, i, "", value);
    forall j | 8 <= j < i + 8 && 0 <= j < |s| ensures s[j] != '=' {
      if j < i {
        assert s[j] == prefix[j];
      } else {
        assert s[j] == KEY[j - i];
      }
    }
    NoMatchWithoutEquals(s, 0, i);
    FilenameParameterIsLeftmostMatch(s, value);
  }
}
