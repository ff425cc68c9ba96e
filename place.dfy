/**
 * The clean-up of the `n_Place` string: every run of two or more whitespace characters
 * becomes one space (`re.sub(r"\s{2,}", " ", s)`), then spaces and commas are stripped
 * from both ends (`s.strip(" ,")`).
 */
module Place {
  import opened Text

  /** The end of the run of whitespace that starts at `i`. */
  function SpaceRunEnd(s: string, i: nat): (j: nat)
    requires i <= |s|
    ensures i <= j <= |s|
    ensures forall k :: i <= k < j ==> IsSpace(s[k])
    ensures j == |s| || !IsSpace(s[j])
    decreases |s| - i
  {
    if i == |s| || !IsSpace(s[i]) then i else SpaceRunEnd(s, i + 1)
  }

  /** No two neighbouring characters are both whitespace. */
  predicate NoDoubleSpace(s: string) {
    forall k :: 0 <= k < |s| - 1 ==> !(IsSpace(s[k]) && IsSpace(s[k + 1]))
  }

  /** The characters of `s` that are not whitespace, in order. */
  function NonSpace(s: string): string {
    if s == [] then [] else (if IsSpace(s[0]) then [] else [s[0]]) + NonSpace(s[1..])
  }

  /** The characters of `s` that are neither whitespace nor a comma, in order. */
  function Visible(s: string): string {
    if s == [] then [] else (if IsSpace(s[0]) || s[0] == ',' then [] else [s[0]]) + Visible(s[1..])
  }

  /** Keeping the non-space characters distributes over concatenation. */
  lemma {:induction false} NonSpaceConcat(a: string, b: string)
    ensures NonSpace(a + b) == NonSpace(a) + NonSpace(b)
    decreases |a|
  {
    if a == [] {
      assert a + b == b;
    } else {
      var ab := a + b;
      assert ab[0] == a[0] && ab[1..] == a[1..] + b;
      NonSpaceConcat(a[1..], b);
      var h := if IsSpace(a[0]) then [] else [a[0]];
      calc {
        NonSpace(ab);
        h + NonSpace(a[1..] + b);
        h + (NonSpace(a[1..]) + NonSpace(b));
        (h + NonSpace(a[1..])) + NonSpace(b);
      }
    }
  }

  /** Keeping the visible characters distributes over concatenation. */
  lemma {:induction false} VisibleConcat(a: string, b: string)
    ensures Visible(a + b) == Visible(a) + Visible(b)
    decreases |a|
  {
    if a == [] {
      assert a + b == b;
    } else {
      var ab := a + b;
      assert ab[0] == a[0] && ab[1..] == a[1..] + b;
      VisibleConcat(a[1..], b);
      var h := if IsSpace(a[0]) || a[0] == ',' then [] else [a[0]];
      calc {
        Visible(ab);
        h + Visible(a[1..] + b);
        h + (Visible(a[1..]) + Visible(b));
        (h + Visible(a[1..])) + Visible(b);
      }
    }
  }

  /** Both filters distribute over concatenation. */
  lemma FiltersConcat(a: string, b: string)
    ensures NonSpace(a + b) == NonSpace(a) + NonSpace(b)
    ensures Visible(a + b) == Visible(a) + Visible(b)
  {
    NonSpaceConcat(a, b);
    VisibleConcat(a, b);
  }

  /** A leading run of whitespace contributes nothing to either filter. */
  lemma {:induction false} SpacesFilteredOut(s: string, j: nat)
    requires j <= |s| && forall k :: 0 <= k < j ==> IsSpace(s[k])
    ensures NonSpace(s) == NonSpace(s[j..]) && Visible(s) == Visible(s[j..])
    decreases j
  {
    if j > 0 {
      assert NonSpace(s) == NonSpace(s[1..]) && Visible(s) == Visible(s[1..]);
      SpacesFilteredOut(s[1..], j - 1);
      assert s[1..][j - 1..] == s[j..];
    }
  }

  /** Spaces and commas alone show nothing. */
  lemma {:induction false} NothingVisible(s: string)
    requires forall k :: 0 <= k < |s| ==> IsSpaceOrComma(s[k])
    ensures Visible(s) == []
    decreases |s|
  {
    if s != [] {
      NothingVisible(s[1..]);
    }
  }

  /** A whitespace character `h` in place of the leading run `s[..j]` shows the same text. */
  lemma SpaceThenText(s: string, j: nat, h: string, t: string)
    requires j <= |s| && forall k :: 0 <= k < j ==> IsSpace(s[k])
    requires |h| == 1 && IsSpace(h[0])
    requires NonSpace(t) == NonSpace(s[j..]) && Visible(t) == Visible(s[j..])
    ensures NonSpace(h + t) == NonSpace(s) && Visible(h + t) == Visible(s)
  {
    FiltersConcat(h, t);
    assert h[1..] == [];
    SpacesFilteredOut(s, j);
  }

  /** Keeping the first character of `s` before `t` shows the same text. */
  lemma CharThenText(s: string, t: string)
    requires s != []
    requires NonSpace(t) == NonSpace(s[1..]) && Visible(t) == Visible(s[1..])
    ensures NonSpace([s[0]] + t) == NonSpace(s) && Visible([s[0]] + t) == Visible(s)
  {
    FiltersConcat([s[0]], t);
    assert [s[0]][1..] == [];
  }

  /**
   * `re.sub(r"\s{2,}", " ", s)`: scanning left to right, a maximal run of at least two
   * whitespace characters is replaced by one space; a lone whitespace character stays.
   * Every other character survives, in order.
   */
  function Collapse(s: string): (r: string)
    ensures NoDoubleSpace(r)
    ensures |r| <= |s|
    ensures s == [] <==> r == []
    ensures s != [] ==> (IsSpace(r[0]) <==> IsSpace(s[0]))
    ensures s != [] && !IsSpace(s[0]) ==> r[0] == s[0]
    ensures NonSpace(r) == NonSpace(s) && Visible(r) == Visible(s)
    decreases |s|
  {
    if s == [] then []
    else if IsSpace(s[0]) then
      var j := SpaceRunEnd(s, 0);
      var h := if j >= 2 then " " else [s[0]];
      var t := Collapse(s[j..]);
      SpaceThenText(s, j, h, t);
      h + t
    else
      var t := Collapse(s[1..]);
      CharThenText(s, t);
      [s[0]] + t
  }

  /** A run of whitespace that starts inside `p` ends inside `p` when `p` ends in a non-space. */
  lemma {:induction false} SpaceRunEndPrefix(p: string, q: string, i: nat)
    requires i < |p| && !IsSpace(p[|p| - 1])
    ensures SpaceRunEnd(p + q, i) == SpaceRunEnd(p, i) < |p|
    decreases |p| - i
  {
    assert (p + q)[i] == p[i];
    if IsSpace(p[i]) {
      SpaceRunEndPrefix(p, q, i + 1);
    }
  }

  /** One step of the clean-up at a whitespace character. */
  lemma CollapseSpaceStep(s: string)
    requires s != [] && IsSpace(s[0])
    ensures var j := SpaceRunEnd(s, 0);
      Collapse(s) == (if j >= 2 then " " else [s[0]]) + Collapse(s[j..])
  {
  }

  /** One step of the clean-up at a non-space character. */
  lemma CollapseCharStep(s: string)
    requires s != [] && !IsSpace(s[0])
    ensures Collapse(s) == [s[0]] + Collapse(s[1..])
  {
  }

  /** Concatenation is associative. */
  lemma ConcatAssoc(a: string, b: string, c: string)
    ensures a + (b + c) == (a + b) + c
  {
  }

  /** Dropping a prefix of `p` from `p + q`. */
  lemma DropOfConcat(p: string, q: string, j: nat)
    requires j <= |p|
    ensures (p + q)[j..] == p[j..] + q
  {
  }

  /** The clean-up works piece by piece across a boundary after a non-space character. */
  lemma {:induction false} CollapseConcat(p: string, q: string)
    requires p == [] || !IsSpace(p[|p| - 1])
    ensures Collapse(p + q) == Collapse(p) + Collapse(q)
    decreases |p|, 1
  {
    if p == [] {
      assert p + q == q;
    } else if IsSpace(p[0]) {
      CollapseConcatAtSpace(p, q);
    } else {
      CollapseConcatAtChar(p, q);
    }
  }

  /** `CollapseConcat` when `p` starts with whitespace. */
  lemma {:induction false} CollapseConcatAtSpace(p: string, q: string)
    requires p != [] && IsSpace(p[0]) && !IsSpace(p[|p| - 1])
    ensures Collapse(p + q) == Collapse(p) + Collapse(q)
    decreases |p|, 0
  {
    var s := p + q;
    SpaceRunEndPrefix(p, q, 0);
    var j := SpaceRunEnd(p, 0);
    var h := if j >= 2 then " " else [p[0]];
    assert s[0] == p[0];
    DropOfConcat(p, q, j);
    CollapseConcat(p[j..], q);
    CollapseSpaceStep(s);
    CollapseSpaceStep(p);
    ConcatAssoc(h, Collapse(p[j..]), Collapse(q));
  }

  /** `CollapseConcat` when `p` starts with a non-space character. */
  lemma {:induction false} CollapseConcatAtChar(p: string, q: string)
    requires p != [] && !IsSpace(p[0]) && !IsSpace(p[|p| - 1])
    ensures Collapse(p + q) == Collapse(p) + Collapse(q)
    decreases |p|, 0
  {
    var s := p + q;
    assert s[0] == p[0];
    DropOfConcat(p, q, 1);
    CollapseConcat(p[1..], q);
    CollapseCharStep(s);
    CollapseCharStep(p);
    ConcatAssoc([p[0]], Collapse(p[1..]), Collapse(q));
  }

  /** A run of whitespace followed by a non-space character or the end ends there. */
  lemma RunEnds(x: string, n: nat)
    requires n <= |x| && forall k :: 0 <= k < n ==> IsSpace(x[k])
    requires n == |x| || !IsSpace(x[n])
    ensures SpaceRunEnd(x, 0) == n
  {
  }

  /** A whitespace run `w` followed by a non-space character or the end. */
  lemma RunEndsAt(w: string, q: string)
    requires forall k :: 0 <= k < |w| ==> IsSpace(w[k])
    requires q == [] || !IsSpace(q[0])
    ensures SpaceRunEnd(w + q, 0) == |w|
  {
    var x := w + q;
    assert forall k :: 0 <= k < |w| ==> x[k] == w[k];
    assert |w| < |x| ==> x[|w|] == q[0];
    RunEnds(x, |w|);
  }

  /** The clean-up of a whitespace run `w` followed by a non-space character or the end. */
  lemma CollapseRunThen(w: string, q: string)
    requires w != [] && forall k :: 0 <= k < |w| ==> IsSpace(w[k])
    requires q == [] || !IsSpace(q[0])
    ensures Collapse(w + q) == (if |w| >= 2 then " " else [w[0]]) + Collapse(q)
  {
    var x := w + q;
    assert x[0] == w[0];
    RunEndsAt(w, q);
    DropOfConcat(w, q, |w|);
    assert w[|w|..] + q == q;
    CollapseSpaceStep(x);
  }

  /** A lone whitespace character between non-space characters is kept as it is. */
  lemma CollapseLone(p: string, c: char, q: string)
    requires IsSpace(c)
    requires p == [] || !IsSpace(p[|p| - 1])
    requires q == [] || !IsSpace(q[0])
    ensures Collapse(p + [c] + q) == Collapse(p) + [c] + Collapse(q)
  {
    ConcatAssoc(p, [c], q);
    CollapseConcat(p, [c] + q);
    CollapseRunThen([c], q);
    ConcatAssoc(Collapse(p), [c], Collapse(q));
  }

  /** A run of two or more whitespace characters between non-space characters becomes one space. */
  lemma CollapseRun(p: string, w: string, q: string)
    requires |w| >= 2 && forall k :: 0 <= k < |w| ==> IsSpace(w[k])
    requires p == [] || !IsSpace(p[|p| - 1])
    requires q == [] || !IsSpace(q[0])
    ensures Collapse(p + w + q) == Collapse(p) + " " + Collapse(q)
  {
    ConcatAssoc(p, w, q);
    CollapseConcat(p, w + q);
    CollapseRunThen(w, q);
    ConcatAssoc(Collapse(p), " ", Collapse(q));
  }

  /** Text that already has no double whitespace is left as it is. */
  lemma {:induction false} CollapseKeeps(s: string)
    requires NoDoubleSpace(s)
    ensures Collapse(s) == s
    decreases |s|
  {
    if s != [] {
      assert NoDoubleSpace(s[1..]);
      if IsSpace(s[0]) {
        assert SpaceRunEnd(s, 0) == 1;
      }
      CollapseKeeps(s[1..]);
    }
  }

  /** A piece of text without double whitespace has none either. */
  lemma NoDoubleSpaceSlice(s: string, a: nat, n: nat)
    requires NoDoubleSpace(s) && a + n <= |s|
    ensures NoDoubleSpace(s[a..a + n])
  {
    var p := s[a..a + n];
    forall k | 0 <= k < |p| - 1 ensures !(IsSpace(p[k]) && IsSpace(p[k + 1])) {
      assert p[k] == s[a + k] && p[k + 1] == s[a + k + 1];
    }
  }

  /** The characters of `strip(" ,")`. */
  predicate IsSpaceOrComma(c: char) {
    c == ' ' || c == ','
  }

  /** A string is its prefix, a middle piece and its suffix. */
  lemma SplitThree(c: string, a: nat, n: nat)
    requires a + n <= |c|
    ensures c == c[..a] + c[a..a + n] + c[a + n..]
  {
  }

  /** Removing spaces and commas from the ends hides nothing visible. */
  lemma TrimmedKeepsVisible(c: string, r: string, a: nat)
    requires TrimmedAt(c, r, a, IsSpaceOrComma)
    ensures Visible(r) == Visible(c)
  {
    var pre, post := c[..a], c[a + |r|..];
    SplitThree(c, a, |r|);
    assert forall k :: 0 <= k < |pre| ==> pre[k] == c[k];
    assert forall k :: 0 <= k < |post| ==> post[k] == c[a + |r| + k];
    NothingVisible(pre);
    NothingVisible(post);
    FiltersConcat(pre + r, post);
    FiltersConcat(pre, r);
  }

  /** Stripping spaces and commas creates no double whitespace. */
  lemma StripKeepsNoDoubleSpace(c: string)
    requires NoDoubleSpace(c)
    ensures NoDoubleSpace(Strip(c, IsSpaceOrComma))
  {
    var r := Strip(c, IsSpaceOrComma);
    NoDoubleSpaceSlice(c, |c| - |StripLeft(c, IsSpaceOrComma)|, |r|);
  }

  /** The `n_Place` clean-up of `clean`. */
  function CleanPlace(s: string): (r: string)
    ensures NoDoubleSpace(r)
    ensures r == [] || (!IsSpaceOrComma(r[0]) && !IsSpaceOrComma(r[|r| - 1]))
  {
    var c := Collapse(s);
    StripKeepsNoDoubleSpace(c);
    Strip(c, IsSpaceOrComma)
  }

  /**
   * The cleaned place is the collapsed text with spaces and commas removed from its two
   * ends and nothing else: `a` of them before it, the rest after it.
   */
  lemma CleanPlaceTrims(s: string) returns (a: nat)
    ensures TrimmedAt(Collapse(s), CleanPlace(s), a, IsSpaceOrComma)
  {
    a := StripOffset(Collapse(s), IsSpaceOrComma);
    assert CleanPlace(s) == Strip(Collapse(s), IsSpaceOrComma);
  }

  /**
   * The clean-up changes only whitespace, and spaces and commas at the ends: every
   * character that is neither whitespace nor a comma survives, in order.
   */
  lemma CleanPlaceKeepsText(s: string)
    ensures Visible(CleanPlace(s)) == Visible(s)
  {
    var a := CleanPlaceTrims(s);
    TrimmedKeepsVisible(Collapse(s), CleanPlace(s), a);
  }

  /** Cleaning a cleaned place changes nothing. */
  lemma CleanPlaceIdempotent(s: string)
    ensures CleanPlace(CleanPlace(s)) == CleanPlace(s)
  {
    var r := CleanPlace(s);
    CollapseKeeps(r);
    StripIdempotent(Collapse(s), IsSpaceOrComma);
  }

  /** With no name, city or state, the concatenation ",  " cleans to the empty string. */
  lemma EmptyPlace()
    ensures CleanPlace(",  ") == ""
  {
    var s := ",  ";
    assert SpaceRunEnd(s[1..], 0) == 2;
    assert Collapse(s[1..]) == " ";
    assert Collapse(s) == ", ";
  }
}
