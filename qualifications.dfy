/** The clean-up of a registry entry's `qualifications` text in the registry lookup
    route (src/app/api/slmc/verify/route.ts): markup tags become ", ", empty list
    items are collapsed, and separators are trimmed from both ends.

    Each `String.prototype.replace` with a global regular expression scans left to
    right and, after a match, resumes just past it; the functions below follow that
    scan character by character. */
module Qualifications {
  import opened JsString

  /** A character of the class `[,\s]`. */
  predicate IsSeparator(c: char) {
    c == ',' || IsSpace(c)
  }

  /** No `<` is followed, anywhere later, by a `>`: the text holds no `<...>` tag. */
  predicate NoTag(s: string) {
    s == [] || ((s[0] == '<' ==> '>' !in s[1..]) && NoTag(s[1..]))
  }

  /** The text starts with `\s*,`. */
  predicate CommaAfterSpaces(t: string) {
    t != [] && (t[0] == ',' || (IsSpace(t[0]) && CommaAfterSpaces(t[1..])))
  }

  /** No `,\s*,` occurs anywhere: the list has no empty item. */
  predicate NoEmptyItem(s: string) {
    s == [] || (!(s[0] == ',' && CommaAfterSpaces(s[1..])) && NoEmptyItem(s[1..]))
  }

  function FirstIndexOf(s: string, c: char): (k: nat)
    requires c in s
    ensures k < |s| && s[k] == c && c !in s[..k]
  {
    if s[0] == c then 0 else 1 + FirstIndexOf(s[1..], c)
  }

  /** The number of white-space characters `s` starts with. */
  function SpaceRun(s: string): (n: nat)
    ensures n <= |s| && AllSpace(s[..n]) && (n < |s| ==> !IsSpace(s[n]))
  {
    if s != [] && IsSpace(s[0]) then 1 + SpaceRun(s[1..]) else 0
  }

  lemma CommaAfterSpacesAt(t: string)
    requires CommaAfterSpaces(t)
    ensures SpaceRun(t) < |t| && t[SpaceRun(t)] == ','
  {
    if t[0] != ',' { CommaAfterSpacesAt(t[1..]); }
  }

  // ------------------------------------------------------------ tags

  /** `.replace(/<[^>]*>/g, ", ")`: a `<` with a `>` somewhere after it starts a tag
      that ends at the first such `>`; a `<` without one is kept. */
  function ReplaceTags(s: string): (r: string)
    ensures NoTag(r)
    ensures '>' in r ==> '>' in s
    decreases |s|
  {
    if s == [] then []
    else if s[0] == '<' && '>' in s[1..] then
      var j := FirstIndexOf(s, '>');
      var rest := ReplaceTags(s[j + 1..]);
      assert (", " + rest)[1..] == " " + rest;
      assert (" " + rest)[1..] == rest;
      ", " + rest
    else
      var rest := ReplaceTags(s[1..]);
      assert ([s[0]] + rest)[1..] == rest;
      [s[0]] + rest
  }

  /** Text without tags passes through unchanged. */
  lemma {:induction false} ReplaceTagsKeepsTagFree(s: string)
    requires NoTag(s)
    ensures ReplaceTags(s) == s
  {
    if s != [] {
      ReplaceTagsKeepsTagFree(s[1..]);
    }
  }

  // ------------------------------------------------- empty items, as written

  /** `.replace(/,\s*,/g, ",")` as the route writes it: one pass, and the scan resumes
      after the second comma of a match, so that comma cannot open the next match. */
  function CollapseOnePass(s: string): (r: string)
    ensures |r| <= |s|
    ensures '>' in r ==> '>' in s
    decreases |s|
  {
    if s == [] then []
    else if s[0] == ',' && CommaAfterSpaces(s[1..]) then
      CommaAfterSpacesAt(s[1..]);
      "," + CollapseOnePass(s[2 + SpaceRun(s[1..])..])
    else [s[0]] + CollapseOnePass(s[1..])
  }

  // ------------------------------------------------- empty items, corrected

  /** Collapse `,\s*,` to "," until none is left: of a run of commas separated only
      by white space, the last comma is kept. */
  function CollapseEmptyItems(s: string): (r: string)
    ensures |r| <= |s|
    ensures '>' in r ==> '>' in s
    decreases |s|
  {
    if s == [] then []
    else if s[0] == ',' && CommaAfterSpaces(s[1..]) then
      CommaAfterSpacesAt(s[1..]);
      CollapseEmptyItems(s[1 + SpaceRun(s[1..])..])
    else [s[0]] + CollapseEmptyItems(s[1..])
  }

  lemma {:induction false} CollapseKeepsLeadingComma(t: string)
    requires t != [] && t[0] == ','
    ensures CollapseEmptyItems(t) != [] && CollapseEmptyItems(t)[0] == ','
    decreases |t|
  {
    if CommaAfterSpaces(t[1..]) {
      CommaAfterSpacesAt(t[1..]);
      CollapseKeepsLeadingComma(t[1 + SpaceRun(t[1..])..]);
    }
  }

  /** Collapsing neither creates nor removes a `\s*,` at the front. */
  lemma {:induction false} CollapseKeepsCommaAfterSpaces(t: string)
    ensures CommaAfterSpaces(CollapseEmptyItems(t)) <==> CommaAfterSpaces(t)
    decreases |t|
  {
    if t == [] {
    } else if t[0] == ',' {
      CollapseKeepsLeadingComma(t);
    } else {
      var r := CollapseEmptyItems(t);
      assert r == [t[0]] + CollapseEmptyItems(t[1..]);
      assert r[1..] == CollapseEmptyItems(t[1..]);
      CollapseKeepsCommaAfterSpaces(t[1..]);
    }
  }

  lemma {:induction false} CollapseLeavesNoEmptyItem(s: string)
    ensures NoEmptyItem(CollapseEmptyItems(s))
    decreases |s|
  {
    if s == [] {
    } else if s[0] == ',' && CommaAfterSpaces(s[1..]) {
      CommaAfterSpacesAt(s[1..]);
      CollapseLeavesNoEmptyItem(s[1 + SpaceRun(s[1..])..]);
    } else {
      var r := CollapseEmptyItems(s);
      assert r == [s[0]] + CollapseEmptyItems(s[1..]);
      assert r[1..] == CollapseEmptyItems(s[1..]);
      CollapseKeepsCommaAfterSpaces(s[1..]);
      CollapseLeavesNoEmptyItem(s[1..]);
    }
  }

  /** A list without empty items passes through unchanged. */
  lemma {:induction false} CollapseKeepsClean(s: string)
    requires NoEmptyItem(s)
    ensures CollapseEmptyItems(s) == s
  {
    if s != [] {
      CollapseKeepsClean(s[1..]);
    }
  }

  lemma {:induction false} CollapseKeepsNoTag(s: string)
    requires NoTag(s)
    ensures NoTag(CollapseEmptyItems(s))
    decreases |s|
  {
    if s == [] {
    } else if s[0] == ',' && CommaAfterSpaces(s[1..]) {
      CommaAfterSpacesAt(s[1..]);
      NoTagSuffix(s, 1 + SpaceRun(s[1..]));
      CollapseKeepsNoTag(s[1 + SpaceRun(s[1..])..]);
    } else {
      var r := CollapseEmptyItems(s);
      assert r[1..] == CollapseEmptyItems(s[1..]);
      CollapseKeepsNoTag(s[1..]);
    }
  }

  // ------------------------------------- the single pass against the fixed point

  lemma {:induction false} OnePassKeepsNoTag(s: string)
    requires NoTag(s)
    ensures NoTag(CollapseOnePass(s))
    decreases |s|
  {
    if s == [] {
    } else if s[0] == ',' && CommaAfterSpaces(s[1..]) {
      CommaAfterSpacesAt(s[1..]);
      NoTagSuffix(s, 2 + SpaceRun(s[1..]));
      OnePassKeepsNoTag(s[2 + SpaceRun(s[1..])..]);
      assert ("," + CollapseOnePass(s[2 + SpaceRun(s[1..])..]))[1..]
          == CollapseOnePass(s[2 + SpaceRun(s[1..])..]);
    } else {
      var r := CollapseOnePass(s);
      assert r[1..] == CollapseOnePass(s[1..]);
      OnePassKeepsNoTag(s[1..]);
    }
  }

  /** A list without empty items passes the single pass unchanged. */
  lemma {:induction false} OnePassKeepsClean(s: string)
    requires NoEmptyItem(s)
    ensures CollapseOnePass(s) == s
  {
    if s != [] {
      OnePassKeepsClean(s[1..]);
    }
  }

  /** The single pass neither creates nor removes a `\s*,` at the front. */
  lemma {:induction false} OnePassKeepsCommaAfterSpaces(t: string)
    ensures CommaAfterSpaces(CollapseOnePass(t)) <==> CommaAfterSpaces(t)
    decreases |t|
  {
    if t != [] && t[0] != ',' {
      var r := CollapseOnePass(t);
      assert r == [t[0]] + CollapseOnePass(t[1..]);
      assert r[1..] == CollapseOnePass(t[1..]);
      OnePassKeepsCommaAfterSpaces(t[1..]);
    }
  }

  /** Running the full collapse after the single pass gives what the full collapse
      gives on its own: the single pass does part of the work and loses nothing. */
  lemma {:induction false} OnePassThenCollapse(s: string)
    ensures CollapseEmptyItems(CollapseOnePass(s)) == CollapseEmptyItems(s)
    decreases |s|
  {
    if s == [] {
    } else if s[0] == ',' && CommaAfterSpaces(s[1..]) {
      CommaAfterSpacesAt(s[1..]);
      var n := SpaceRun(s[1..]);
      var t := s[2 + n..];
      assert s[1 + n..] == [','] + t;
      CommaThenOnePass(t);
    } else {
      var r := CollapseOnePass(s);
      assert r == [s[0]] + CollapseOnePass(s[1..]);
      assert r[1..] == CollapseOnePass(s[1..]);
      OnePassKeepsCommaAfterSpaces(s[1..]);
      OnePassThenCollapse(s[1..]);
    }
  }

  lemma {:induction false} CommaThenOnePass(t: string)
    ensures CollapseEmptyItems([','] + CollapseOnePass(t)) == CollapseEmptyItems([','] + t)
    decreases |t| + 1
  {
    var u := CollapseOnePass(t);
    assert ([','] + u)[1..] == u && ([','] + t)[1..] == t;
    OnePassKeepsCommaAfterSpaces(t);
    if CommaAfterSpaces(t) {
      CommaAfterSpacesAt(t);
      var m := SpaceRun(t);
      var spaces, rest := t[..m], t[m + 1..];
      assert t == spaces + ([','] + rest);
      assert ',' !in spaces by {
        forall k | 0 <= k < |spaces| ensures spaces[k] != ',' { assert IsSpace(spaces[k]); }
      }
      CollapsePlainPrefix(spaces, [','] + rest);
      var w := CollapseOnePass([','] + rest);
      assert u == spaces + w;
      OnePassStartsWithComma(rest);
      assert SpaceRun(u) == m by { SpaceRunOfSpaces(spaces, w); }
      assert u[m..] == w;
      assert ([','] + t)[1 + m..] == [','] + rest;
      assert ([','] + u)[1 + m..] == w;
      OnePassThenCollapse([','] + rest);
    } else {
      OnePassThenCollapse(t);
    }
  }

  lemma OnePassStartsWithComma(rest: string)
    ensures CollapseOnePass([','] + rest) != [] && CollapseOnePass([','] + rest)[0] == ','
  {
    assert ([','] + rest)[0] == ',';
  }

  lemma {:induction false} SpaceRunOfSpaces(spaces: string, w: string)
    requires AllSpace(spaces) && w != [] && w[0] == ','
    ensures SpaceRun(spaces + w) == |spaces|
  {
    if spaces != [] {
      assert (spaces + w)[1..] == spaces[1..] + w;
      assert AllSpace(spaces[1..]) by {
        forall k | 0 <= k < |spaces[1..]| ensures IsSpace(spaces[1..][k]) { assert spaces[1..][k] == spaces[k + 1]; }
      }
      SpaceRunOfSpaces(spaces[1..], w);
    } else {
      assert spaces + w == w;
    }
  }

  // ------------------------------------------------------ outer separators

  predicate AllSeparators(s: string) {
    forall k :: 0 <= k < |s| ==> IsSeparator(s[k])
  }

  /** `r` is `s` with a run of separators cut from each end and everything between
      kept: a slice `s[i..i + |r|]` with only separators outside it. */
  predicate OuterSeparatorsCut(s: string, r: string) {
    exists i :: 0 <= i && i + |r| <= |s| && r == s[i..i + |r|]
                && AllSeparators(s[..i]) && AllSeparators(s[i + |r|..])
  }

  /** `^[,\s]+`: the leading run of separators, and only that run, is removed. */
  function DropLeadingSeparators(s: string): (r: string)
    ensures |r| <= |s| && r == s[|s| - |r|..]
    ensures AllSeparators(s[..|s| - |r|])
    ensures r == [] || !IsSeparator(r[0])
  {
    if s != [] && IsSeparator(s[0]) then
      var r := DropLeadingSeparators(s[1..]);
      assert s[..|s| - |r|] == [s[0]] + s[1..][..|s| - 1 - |r|];
      r
    else s
  }

  /** `[,\s]+$`: the trailing run of separators, and only that run, is removed. */
  function DropTrailingSeparators(s: string): (r: string)
    ensures |r| <= |s| && r == s[..|r|]
    ensures AllSeparators(s[|r|..])
    ensures r == [] || !IsSeparator(r[|r| - 1])
  {
    if s != [] && IsSeparator(s[|s| - 1]) then
      var r := DropTrailingSeparators(s[..|s| - 1]);
      assert s[|r|..] == s[..|s| - 1][|r|..] + [s[|s| - 1]];
      r
    else s
  }

  /** `.replace(/^[,\s]+|[,\s]+$/g, "")`: the separator runs at both ends are cut
      and everything between them is kept. */
  function TrimSeparators(s: string): (r: string)
    ensures OuterSeparatorsCut(s, r)
    ensures r == [] || (!IsSeparator(r[0]) && !IsSeparator(r[|r| - 1]))
  {
    var t := DropLeadingSeparators(s);
    var r := DropTrailingSeparators(t);
    CutAt(s, t, r);
    r
  }

  lemma CutAt(s: string, t: string, r: string)
    requires |t| <= |s| && t == s[|s| - |t|..] && AllSeparators(s[..|s| - |t|])
    requires |r| <= |t| && r == t[..|r|] && AllSeparators(t[|r|..])
    ensures OuterSeparatorsCut(s, r)
  {
    var i := |s| - |t|;
    assert s[i..i + |r|] == r;
    assert s[i + |r|..] == t[|r|..];
  }

  /** Where the leading run of separators ends, the rest is kept. */
  lemma {:induction false} LeadingRunEndsAt(s: string, i: nat)
    requires i < |s| && AllSeparators(s[..i]) && !IsSeparator(s[i])
    ensures DropLeadingSeparators(s) == s[i..]
  {
    if i > 0 {
      assert s[0] == s[..i][0];
      assert s[1..][..i - 1] == s[..i][1..];
      LeadingRunEndsAt(s[1..], i - 1);
      assert s[1..][i - 1..] == s[i..];
    }
  }

  /** Text made only of separators is cut away entirely. */
  lemma {:induction false} AllSeparatorsDropped(s: string)
    requires AllSeparators(s)
    ensures DropLeadingSeparators(s) == []
  {
    if s != [] {
      AllSeparatorsDropped(s[1..]);
    }
  }

  /** Where the trailing run of separators starts, the text before it is kept. */
  lemma {:induction false} TrailingRunStartsAt(t: string, m: nat)
    requires 0 < m <= |t| && !IsSeparator(t[m - 1]) && AllSeparators(t[m..])
    ensures DropTrailingSeparators(t) == t[..m]
    decreases |t|
  {
    if m < |t| {
      assert t[|t| - 1] == t[m..][|t| - 1 - m];
      var init := t[..|t| - 1];
      assert init[m..] == t[m..][..|t| - 1 - m];
      TrailingRunStartsAt(init, m);
      assert init[..m] == t[..m];
    }
  }

  /** The trim is the only slice with separators outside it and none at its own
      ends: the contract of `TrimSeparators` determines its result. */
  lemma TrimSeparatorsUnique(s: string, r: string)
    requires OuterSeparatorsCut(s, r)
    requires r == [] || (!IsSeparator(r[0]) && !IsSeparator(r[|r| - 1]))
    ensures r == TrimSeparators(s)
  {
    var i :| 0 <= i && i + |r| <= |s| && r == s[i..i + |r|]
             && AllSeparators(s[..i]) && AllSeparators(s[i + |r|..]);
    if r == [] {
      EmptyCutIsTrim(s, i);
    } else {
      CutIsTrim(s, r, i);
    }
  }

  lemma EmptyCutIsTrim(s: string, i: nat)
    requires i <= |s| && AllSeparators(s[..i]) && AllSeparators(s[i..])
    ensures TrimSeparators(s) == []
  {
    assert AllSeparators(s) by {
      forall k | 0 <= k < |s| ensures IsSeparator(s[k]) {
        if k < i { assert s[k] == s[..i][k]; } else { assert s[k] == s[i..][k - i]; }
      }
    }
    AllSeparatorsDropped(s);
  }

  lemma CutIsTrim(s: string, r: string, i: nat)
    requires r != [] && !IsSeparator(r[0]) && !IsSeparator(r[|r| - 1])
    requires i + |r| <= |s| && r == s[i..i + |r|]
    requires AllSeparators(s[..i]) && AllSeparators(s[i + |r|..])
    ensures TrimSeparators(s) == r
  {
    assert s[i] == r[0];
    LeadingRunEndsAt(s, i);
    TrailingCut(s, r, i);
  }

  lemma TrailingCut(s: string, r: string, i: nat)
    requires r != [] && !IsSeparator(r[|r| - 1])
    requires i + |r| <= |s| && r == s[i..i + |r|] && AllSeparators(s[i + |r|..])
    ensures DropTrailingSeparators(s[i..]) == r
  {
    var t := s[i..];
    assert t[|r| - 1] == r[|r| - 1];
    assert t[|r|..] == s[i + |r|..];
    TrailingRunStartsAt(t, |r|);
    assert t[..|r|] == r;
  }

  lemma {:induction false} NoTagSuffix(s: string, k: nat)
    requires NoTag(s) && k <= |s|
    ensures NoTag(s[k..])
  {
    if k > 0 {
      NoTagSuffix(s[1..], k - 1);
      assert s[1..][k - 1..] == s[k..];
    }
  }

  lemma {:induction false} NoTagPrefix(s: string, k: nat)
    requires NoTag(s) && k <= |s|
    ensures NoTag(s[..k])
  {
    if k > 0 {
      NoTagPrefix(s[1..], k - 1);
      assert s[..k][1..] == s[1..][..k - 1];
      assert s[1..] == s[1..][..k - 1] + s[k..];
    }
  }

  lemma {:induction false} CommaAfterSpacesExtends(t: string, k: nat)
    requires k <= |t| && CommaAfterSpaces(t[..k])
    ensures CommaAfterSpaces(t)
  {
    if t[0] != ',' {
      assert t[..k][1..] == t[1..][..k - 1];
      CommaAfterSpacesExtends(t[1..], k - 1);
    }
  }

  lemma {:induction false} NoEmptyItemSuffix(s: string, k: nat)
    requires NoEmptyItem(s) && k <= |s|
    ensures NoEmptyItem(s[k..])
  {
    if k > 0 {
      NoEmptyItemSuffix(s[1..], k - 1);
      assert s[1..][k - 1..] == s[k..];
    }
  }

  lemma {:induction false} NoEmptyItemPrefix(s: string, k: nat)
    requires NoEmptyItem(s) && k <= |s|
    ensures NoEmptyItem(s[..k])
  {
    if k > 0 {
      NoEmptyItemPrefix(s[1..], k - 1);
      assert s[..k][1..] == s[1..][..k - 1];
      if s[0] == ',' && CommaAfterSpaces(s[..k][1..]) {
        CommaAfterSpacesExtends(s[1..], k - 1);
      }
    }
  }

  lemma TrimSeparatorsKeeps(s: string)
    requires NoTag(s) && NoEmptyItem(s)
    ensures NoTag(TrimSeparators(s)) && NoEmptyItem(TrimSeparators(s))
  {
    var t := DropLeadingSeparators(s);
    NoTagSuffix(s, |s| - |t|);
    NoEmptyItemSuffix(s, |s| - |t|);
    var r := DropTrailingSeparators(t);
    NoTagPrefix(t, |r|);
    NoEmptyItemPrefix(t, |r|);
  }

  lemma TrimSeparatorsKeepsNoTag(s: string)
    requires NoTag(s)
    ensures NoTag(TrimSeparators(s))
  {
    var t := DropLeadingSeparators(s);
    NoTagSuffix(s, |s| - |t|);
    NoTagPrefix(t, |DropTrailingSeparators(t)|);
  }

  lemma TrimSeparatorsKeepsTrimmed(s: string)
    requires s == [] || (!IsSeparator(s[0]) && !IsSeparator(s[|s| - 1]))
    ensures TrimSeparators(s) == s
  {
  }

  // ------------------------------------------------------------- the chain

  /** The three replacements as the route chains them: no tag is left and no
      separator sits at either end, but an empty item can remain. Between the ends,
      the collapsed text is kept as it is. */
  function SanitizeAsWritten(q: string): (r: string)
    ensures OuterSeparatorsCut(CollapseOnePass(ReplaceTags(q)), r)
    ensures NoTag(r)
    ensures r == [] || (!IsSeparator(r[0]) && !IsSeparator(r[|r| - 1]))
  {
    var tagless := ReplaceTags(q);
    var collapsed := CollapseOnePass(tagless);
    OnePassKeepsNoTag(tagless);
    TrimSeparatorsKeepsNoTag(collapsed);
    TrimSeparators(collapsed)
  }

  /** The chain with empty items collapsed until none is left: no tag, no empty item,
      no separator at either end. Between the ends, the collapsed text is kept as
      it is. */
  function SanitizeQualifications(q: string): (r: string)
    ensures OuterSeparatorsCut(CollapseEmptyItems(ReplaceTags(q)), r)
    ensures NoTag(r)
    ensures NoEmptyItem(r)
    ensures r == [] || (!IsSeparator(r[0]) && !IsSeparator(r[|r| - 1]))
  {
    var tagless := ReplaceTags(q);
    var collapsed := CollapseEmptyItems(tagless);
    CollapseKeepsNoTag(tagless);
    CollapseLeavesNoEmptyItem(tagless);
    TrimSeparatorsKeeps(collapsed);
    TrimSeparators(collapsed)
  }

  /** Clean text is left as it is, so sanitising twice is sanitising once. */
  lemma SanitizeIdempotent(q: string)
    ensures SanitizeQualifications(SanitizeQualifications(q)) == SanitizeQualifications(q)
  {
    var r := SanitizeQualifications(q);
    ReplaceTagsKeepsTagFree(r);
    CollapseKeepsClean(r);
    TrimSeparatorsKeepsTrimmed(r);
  }

  lemma {:induction false} ReplaceTagsPlainPrefix(p: string, s: string)
    requires '<' !in p
    ensures ReplaceTags(p + s) == p + ReplaceTags(s)
  {
    if p != [] {
      assert p[0] in p;
      var t := p + s;
      assert t != [] && t[0] == p[0] && t[1..] == p[1..] + s;
      assert ReplaceTags(t) == [t[0]] + ReplaceTags(t[1..]);
      ReplaceTagsPlainPrefix(p[1..], s);
      assert p == [p[0]] + p[1..];
    } else {
      assert p + s == s;
    }
  }

  lemma {:induction false} FirstIndexAfter(p: string, c: char, s: string)
    requires c !in p
    ensures c in p + [c] + s && FirstIndexOf(p + [c] + s, c) == |p|
  {
    var t := p + [c] + s;
    assert t[|p|] == c;
    if p != [] {
      assert p[0] in p;
      assert t[1..] == p[1..] + [c] + s;
      FirstIndexAfter(p[1..], c, s);
    }
  }

  /** A whole tag, up to its first `>`, becomes ", ". */
  lemma ReplaceTagsTag(x: string, s: string)
    requires '>' !in x
    ensures ReplaceTags(['<'] + x + ['>'] + s) == ", " + ReplaceTags(s)
  {
    var t := ['<'] + x + ['>'] + s;
    FirstIndexAfter(['<'] + x, '>', s);
    assert t[1..] == x + ['>'] + s;
    assert t[|x| + 1] == '>';
    assert '>' in t[1..];
    assert t[|x| + 2..] == s;
  }

  lemma {:induction false} CollapsePlainPrefix(p: string, s: string)
    requires ',' !in p
    ensures CollapseOnePass(p + s) == p + CollapseOnePass(s)
    ensures CollapseEmptyItems(p + s) == p + CollapseEmptyItems(s)
  {
    if p != [] {
      assert p[0] in p;
      assert (p + s)[0] == p[0] && (p + s)[1..] == p[1..] + s;
      CollapsePlainPrefix(p[1..], s);
      assert p == [p[0]] + p[1..];
    } else {
      assert p + s == s;
    }
  }

  /** ", ," followed by anything: the one pass emits "," and resumes after the
      second comma; the corrected collapse drops the first comma and looks again. */
  lemma CollapseCommaSpaceComma(s: string)
    ensures CollapseOnePass([',', ' ', ','] + s) == [','] + CollapseOnePass(s)
    ensures CollapseEmptyItems([',', ' ', ','] + s) == CollapseEmptyItems([','] + s)
  {
    var t := [',', ' ', ','] + s;
    assert t[1..] == [' ', ','] + s;
    assert t[1..][1..] == [','] + s;
    assert CommaAfterSpaces(t[1..]);
    assert SpaceRun(t[1..][1..]) == 0;
    assert SpaceRun(t[1..]) == 1;
    assert t[3..] == s && t[2..] == [','] + s;
  }

  /** A comma followed by a space and then text is a real separator and is kept. */
  lemma CollapseLoneComma(c: char, s: string)
    requires !IsSeparator(c)
    ensures CollapseOnePass([',', ' ', c] + s) == [','] + CollapseOnePass([' ', c] + s)
    ensures CollapseEmptyItems([',', ' ', c] + s) == [','] + CollapseEmptyItems([' ', c] + s)
  {
    var t := [',', ' ', c] + s;
    assert t[1..] == [' ', c] + s;
    assert t[1..][1..] == [c] + s;
    assert !CommaAfterSpaces(t[1..][1..]);
  }

  /** Text with no separator and no tag opener, such as "MBBS" or "MD". */
  predicate PlainText(s: string) {
    s != [] && forall i :: 0 <= i < |s| ==> !IsSeparator(s[i]) && s[i] != '<'
  }

  lemma PlainTextLacks(s: string)
    requires PlainText(s)
    ensures '<' !in s && ',' !in s && !IsSeparator(s[0]) && !IsSeparator(s[|s| - 1])
  {
    assert ',' !in s by {
      forall i | 0 <= i < |s| ensures s[i] != ',' {
        assert !IsSeparator(s[i]);
      }
    }
  }

  /** The markup the registry puts between qualifications. */
  const LineBreak: string := ['<', 'b', 'r', '>']
  /** The list separator the route substitutes for each tag. */
  const ItemSeparator: string := [',', ' ']

  /** Three line breaks between two qualifications become three ", " items. */
  lemma ThreeTags(a: string, b: string)
    requires PlainText(a) && PlainText(b)
    ensures ReplaceTags(a + (LineBreak + (LineBreak + (LineBreak + b))))
         == a + (ItemSeparator + (ItemSeparator + (ItemSeparator + b)))
  {
    PlainTextLacks(a);
    PlainTextLacks(b);
    var br := ['b', 'r'];
    assert LineBreak == ['<'] + br + ['>'];
    ReplaceTagsPlainPrefix(b, []);
    assert b + [] == b;
    ReplaceTagsTag(br, b);
    ReplaceTagsTag(br, LineBreak + b);
    ReplaceTagsTag(br, LineBreak + (LineBreak + b));
    ReplaceTagsPlainPrefix(a, LineBreak + (LineBreak + (LineBreak + b)));
  }

  /** The common tail of both collapses: ", " followed by plain text stays. */
  lemma CollapseSeparatorBefore(b: string)
    requires ',' !in b && b != [] && !IsSeparator(b[0])
    ensures CollapseOnePass(ItemSeparator + b) == ItemSeparator + b
    ensures CollapseEmptyItems(ItemSeparator + b) == ItemSeparator + b
  {
    CollapsePlainPrefix(b, []);
    assert b + [] == b;
    CollapsePlainPrefix([' '], b);
    CollapseLoneComma(b[0], b[1..]);
    SeparatorBeforeSplit(b);
  }

  lemma SeparatorBeforeSplit(b: string)
    requires b != []
    ensures [',', ' ', b[0]] + b[1..] == ItemSeparator + b
    ensures [' ', b[0]] + b[1..] == [' '] + b
  {
    assert b == [b[0]] + b[1..];
  }

  lemma SeparatorRun(b: string)
    ensures ItemSeparator + b == [','] + ([' '] + b)
    ensures ItemSeparator + (ItemSeparator + b) == [',', ' ', ','] + ([' '] + b)
  {
  }

  lemma OnePassLeavesOne(a: string, b: string)
    requires ',' !in a && ',' !in b && b != [] && !IsSeparator(b[0])
    ensures CollapseOnePass(a + (ItemSeparator + (ItemSeparator + (ItemSeparator + b))))
         == a + (ItemSeparator + (ItemSeparator + b))
  {
    var tail := ItemSeparator + b;
    CollapseSeparatorBefore(b);
    CollapsePlainPrefix([' '], tail);
    CollapseCommaSpaceComma([' '] + tail);
    SeparatorRun(tail);
    SeparatorRun(b);
    CollapsePlainPrefix(a, ItemSeparator + (ItemSeparator + tail));
  }

  lemma CollapseLeavesNone(a: string, b: string)
    requires ',' !in a && ',' !in b && b != [] && !IsSeparator(b[0])
    ensures CollapseEmptyItems(a + (ItemSeparator + (ItemSeparator + (ItemSeparator + b))))
         == a + (ItemSeparator + b)
  {
    var tail := ItemSeparator + b;
    CollapseSeparatorBefore(b);
    CollapseCommaSpaceComma([' '] + b);
    SeparatorRun(b);
    CollapseCommaSpaceComma([' '] + tail);
    SeparatorRun(tail);
    CollapsePlainPrefix(a, ItemSeparator + (ItemSeparator + tail));
  }

  /** Between `a` and `b`, ", , " is an empty item. */
  lemma EmptyItemBetween(a: string, b: string)
    ensures !NoEmptyItem(a + (ItemSeparator + (ItemSeparator + b)))
  {
    var w := a + (ItemSeparator + (ItemSeparator + b));
    assert w[|a|..|a| + 3] == [',', ' ', ','];
    EmptyItemWitness(w, |a|);
  }

  /** Three tags in a row between two qualifications ("MBBS<br><br><br>MD"): the
      single pass of the route leaves an empty item ("MBBS, , MD"); collapsing
      until none is left gives "MBBS, MD". */
  lemma AsWrittenLeavesEmptyItem(a: string, b: string)
    requires PlainText(a) && PlainText(b)
    ensures SanitizeAsWritten(a + (LineBreak + (LineBreak + (LineBreak + b))))
         == a + (ItemSeparator + (ItemSeparator + b))
    ensures !NoEmptyItem(SanitizeAsWritten(a + (LineBreak + (LineBreak + (LineBreak + b)))))
    ensures SanitizeQualifications(a + (LineBreak + (LineBreak + (LineBreak + b))))
         == a + (ItemSeparator + b)
  {
    PlainTextLacks(a);
    PlainTextLacks(b);
    ThreeTags(a, b);
    OnePassLeavesOne(a, b);
    CollapseLeavesNone(a, b);
    TrimSeparatorsKeepsTrimmed(a + (ItemSeparator + (ItemSeparator + b)));
    TrimSeparatorsKeepsTrimmed(a + (ItemSeparator + b));
    EmptyItemBetween(a, b);
  }

  /** Where the single pass already leaves no empty item, the route as written and
      the corrected chain give the same text. */
  lemma AsWrittenAgreesWhenOnePassSuffices(q: string)
    requires NoEmptyItem(CollapseOnePass(ReplaceTags(q)))
    ensures SanitizeAsWritten(q) == SanitizeQualifications(q)
  {
    OnePassThenCollapse(ReplaceTags(q));
    CollapseKeepsClean(CollapseOnePass(ReplaceTags(q)));
  }

  /** A trailing line break leaves a trailing ", ", which the final step cuts: both
      chains give the qualification back. */
  lemma TrailingLineBreakDropped(a: string)
    requires PlainText(a)
    ensures SanitizeAsWritten(a + LineBreak) == a
    ensures SanitizeQualifications(a + LineBreak) == a
  {
    PlainTextLacks(a);
    ReplaceTagsPlainPrefix(a, LineBreak);
    ReplaceTagsTag(['b', 'r'], []);
    assert ['<'] + ['b', 'r'] + ['>'] + [] == LineBreak;
    assert ReplaceTags(a + LineBreak) == a + ItemSeparator;
    CollapsePlainPrefix(a, ItemSeparator);
    CollapseTrailingSeparator();
    var c := a + ItemSeparator;
    assert c[..0] == [] && c[0..|a|] == a && c[|a|..] == ItemSeparator;
    assert AllSeparators(c[|a|..]);
    TrimSeparatorsUnique(c, a);
  }

  /** A lone ", " at the end survives both collapses. */
  lemma CollapseTrailingSeparator()
    ensures CollapseOnePass(ItemSeparator) == ItemSeparator
    ensures CollapseEmptyItems(ItemSeparator) == ItemSeparator
  {
    assert ItemSeparator[1..] == [' '] && [' '][1..] == [];
    assert !CommaAfterSpaces([' ']);
  }

  /** The registry text "MBBS<br><br><br>MD" as the route serves it and as intended. */
  lemma MbbsMdExample()
    ensures SanitizeAsWritten("MBBS<br><br><br>MD") == "MBBS, , MD"
    ensures SanitizeQualifications("MBBS<br><br><br>MD") == "MBBS, MD"
  {
    var a, b := "MBBS", "MD";
    assert PlainText(a) && PlainText(b);
    assert "MBBS<br><br><br>MD" == a + (LineBreak + (LineBreak + (LineBreak + b)));
    assert "MBBS, , MD" == a + (ItemSeparator + (ItemSeparator + b));
    assert "MBBS, MD" == a + (ItemSeparator + b);
    AsWrittenLeavesEmptyItem(a, b);
  }

  lemma {:induction false} EmptyItemWitness(r: string, k: nat)
    requires k + 2 < |r| && r[k] == ',' && IsSpace(r[k + 1]) && r[k + 2] == ','
    ensures !NoEmptyItem(r)
  {
    if k == 0 {
      assert r[1..][1..][0] == ',';
      assert CommaAfterSpaces(r[1..]);
    } else {
      EmptyItemWitness(r[1..], k - 1);
    }
  }
}
