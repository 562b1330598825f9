/**
 * Python `re` substitution and the placeholder protect/restore scheme, over
 * abstract patterns.
 *
 * The concrete regular expressions of the pipeline live in `src/settings.py`,
 * which is not part of this model. A pattern is therefore a `Matcher`: the
 * length of the match it makes when tried at index `i` of the whole string
 * (0 when it does not match there). Because it sees the whole string it may
 * look behind and ahead of `i`. Matches are non-empty by construction, which
 * is what makes Python's left-to-right scan below well defined.
 */
module Regex {
  import opened Wrappers
  import opened Text

  type Matcher = (string, nat) -> nat

  /** The match length at `i`, cut at the end of the string. */
  function MatchLength(m: Matcher, s: string, i: nat): (n: nat)
    requires i <= |s|
    ensures n <= |s| - i
  {
    var k := m(s, i);
    if k <= |s| - i then k else |s| - i
  }

  /** `pattern.sub(repl, s)`, scanning from index `i`: each match is replaced by `repl` of its text. */
  function Sub(m: Matcher, repl: string -> string, s: string, i: nat): string
    requires i <= |s|
    decreases |s| - i
  {
    if i == |s| then ""
    else
      var n := MatchLength(m, s, i);
      if n == 0 then [s[i]] + Sub(m, repl, s, i + 1)
      else repl(s[i..i + n]) + Sub(m, repl, s, i + n)
  }

  /** `pattern.findall(s)` from index `i`: the matched texts, in order. */
  function FindAll(m: Matcher, s: string, i: nat): seq<string>
    requires i <= |s|
    decreases |s| - i
  {
    if i == |s| then []
    else
      var n := MatchLength(m, s, i);
      if n == 0 then FindAll(m, s, i + 1)
      else [s[i..i + n]] + FindAll(m, s, i + n)
  }

  /** The unmatched stretches between the matches of a scan from `i` (one more than the matches). */
  function Gaps(m: Matcher, s: string, i: nat): (g: seq<string>)
    requires i <= |s|
    decreases |s| - i
    ensures |g| >= 1
  {
    if i == |s| then [""]
    else
      var n := MatchLength(m, s, i);
      if n == 0 then
        var rest := Gaps(m, s, i + 1);
        [[s[i]] + rest[0]] + rest[1..]
      else [""] + Gaps(m, s, i + n)
  }

  /** The first match of `pattern.search(s)`, if any. */
  function Search(m: Matcher, s: string): Option<string>
  {
    var found := FindAll(m, s, 0);
    if found == [] then None else Some(found[0])
  }

  /** `gaps[0] + vals[0] + gaps[1] + ... + vals[n-1] + gaps[n]` */
  function Fill(gaps: seq<string>, vals: seq<string>): string
    requires |gaps| == |vals| + 1
    decreases |vals|
  {
    if vals == [] then gaps[0] else gaps[0] + vals[0] + Fill(gaps[1..], vals[1..])
  }

  /** The replacement of `pattern.sub(v, s)` for a fixed string `v`. */
  function Constant(v: string): string -> string {
    _ => v
  }

  function Repeat(ph: string, n: nat): (r: seq<string>)
    ensures |r| == n && forall k :: 0 <= k < n ==> r[k] == ph
  {
    seq(n, _ => ph)
  }

  function Apply(f: string -> string, xs: seq<string>): (r: seq<string>)
    ensures |r| == |xs| && forall k :: 0 <= k < |xs| ==> r[k] == f(xs[k])
  {
    seq(|xs|, k requires 0 <= k < |xs| => f(xs[k]))
  }

  /** No string of `xs` holds the character `c`. */
  predicate CharFree(xs: seq<string>, c: char) {
    forall k :: 0 <= k < |xs| ==> c !in xs[k]
  }

  lemma {:induction false} FillPrepend(x: string, gaps: seq<string>, vals: seq<string>)
    requires |gaps| == |vals| + 1
    ensures Fill([x + gaps[0]] + gaps[1..], vals) == x + Fill(gaps, vals)
  {
    var g' := [x + gaps[0]] + gaps[1..];
    assert g'[1..] == gaps[1..];
  }

  lemma {:induction false} FillCharFree(gaps: seq<string>, vals: seq<string>, c: char)
    requires |gaps| == |vals| + 1
    requires CharFree(gaps, c) && CharFree(vals, c)
    ensures c !in Fill(gaps, vals)
    decreases |vals|
  {
    if vals != [] {
      FillCharFree(gaps[1..], vals[1..], c);
    }
  }

  /** The gaps and matches of a scan from `i`, put back together, give `s[i..]`. */
  ghost predicate Decomposed(m: Matcher, s: string, i: nat)
    requires i <= |s|
  {
    |Gaps(m, s, i)| == |FindAll(m, s, i)| + 1 && Fill(Gaps(m, s, i), FindAll(m, s, i)) == s[i..]
  }

  /**
   * A scan cuts `s[i..]` into gaps and matches: the matches are exactly what
   * `findall` returns and putting the pieces back together gives `s[i..]`.
   */
  lemma ScanDecomposes(m: Matcher, s: string, i: nat)
    requires i <= |s|
    ensures |Gaps(m, s, i)| == |FindAll(m, s, i)| + 1
    ensures Fill(Gaps(m, s, i), FindAll(m, s, i)) == s[i..]
  {
    ScanDecomposesFrom(m, s, i);
  }

  lemma {:induction false} ScanDecomposesFrom(m: Matcher, s: string, i: nat)
    requires i <= |s|
    ensures Decomposed(m, s, i)
    decreases |s| - i
  {
    if i == |s| {
      assert Fill([""], []) == "";
    } else if MatchLength(m, s, i) == 0 {
      ScanDecomposesFrom(m, s, i + 1);
      ScanUnmatched(m, s, i);
    } else {
      ScanDecomposesFrom(m, s, i + MatchLength(m, s, i));
      ScanMatched(m, s, i);
    }
  }

  /** An unmatched character joins the first gap of the rest of the scan. */
  lemma ScanUnmatched(m: Matcher, s: string, i: nat)
    requires i < |s| && MatchLength(m, s, i) == 0 && Decomposed(m, s, i + 1)
    ensures Decomposed(m, s, i)
  {
    FillPrepend([s[i]], Gaps(m, s, i + 1), FindAll(m, s, i + 1));
    assert [s[i]] + s[i + 1..] == s[i..];
  }

  /** A match closes an empty gap and is followed by the rest of the scan. */
  lemma ScanMatched(m: Matcher, s: string, i: nat)
    requires i < |s| && MatchLength(m, s, i) > 0 && Decomposed(m, s, i + MatchLength(m, s, i))
    ensures Decomposed(m, s, i)
  {
    var n := MatchLength(m, s, i);
    var g, f := Gaps(m, s, i), FindAll(m, s, i);
    assert g[1..] == Gaps(m, s, i + n) && f[1..] == FindAll(m, s, i + n);
    assert s[i..] == s[i..i + n] + s[i + n..];
  }

  /** The substitution from `i` is the gaps with each match replaced by `repl` of it. */
  ghost predicate Substituted(m: Matcher, repl: string -> string, s: string, i: nat)
    requires i <= |s|
  {
    |Gaps(m, s, i)| == |FindAll(m, s, i)| + 1
    && Sub(m, repl, s, i) == Fill(Gaps(m, s, i), Apply(repl, FindAll(m, s, i)))
  }

  /** `sub` replaces exactly the `findall` matches, each by `repl` of its text, and keeps every gap. */
  lemma SubFillsGaps(m: Matcher, repl: string -> string, s: string, i: nat)
    requires i <= |s|
    ensures |Gaps(m, s, i)| == |FindAll(m, s, i)| + 1
    ensures Sub(m, repl, s, i) == Fill(Gaps(m, s, i), Apply(repl, FindAll(m, s, i)))
  {
    SubstitutedFrom(m, repl, s, i);
  }

  lemma {:induction false} SubstitutedFrom(m: Matcher, repl: string -> string, s: string, i: nat)
    requires i <= |s|
    ensures Substituted(m, repl, s, i)
    decreases |s| - i
  {
    ScanDecomposes(m, s, i);
    if i == |s| {
      assert Fill([""], Apply(repl, [])) == "";
    } else if MatchLength(m, s, i) == 0 {
      SubstitutedFrom(m, repl, s, i + 1);
      SubUnmatched(m, repl, s, i);
    } else {
      SubstitutedFrom(m, repl, s, i + MatchLength(m, s, i));
      SubMatched(m, repl, s, i);
    }
  }

  /** An unmatched character is copied into the first gap. */
  lemma SubUnmatched(m: Matcher, repl: string -> string, s: string, i: nat)
    requires i < |s| && MatchLength(m, s, i) == 0 && Substituted(m, repl, s, i + 1)
    ensures Substituted(m, repl, s, i)
  {
    FillPrepend([s[i]], Gaps(m, s, i + 1), Apply(repl, FindAll(m, s, i + 1)));
  }

  /** A match is replaced after an empty gap. */
  lemma SubMatched(m: Matcher, repl: string -> string, s: string, i: nat)
    requires i < |s| && MatchLength(m, s, i) > 0 && Substituted(m, repl, s, i + MatchLength(m, s, i))
    ensures Substituted(m, repl, s, i)
  {
    var n := MatchLength(m, s, i);
    var g, found := Gaps(m, s, i), FindAll(m, s, i);
    assert g[1..] == Gaps(m, s, i + n) && found[1..] == FindAll(m, s, i + n);
    assert Apply(repl, found)[1..] == Apply(repl, found[1..]);
  }

  /** Gaps and matches are pieces of the input, so they hold no character it lacks. */
  lemma ScanCharFree(m: Matcher, s: string, i: nat, c: char)
    requires i <= |s| && c !in s[i..]
    ensures CharFree(Gaps(m, s, i), c) && CharFree(FindAll(m, s, i), c)
  {
    GapsCharFree(m, s, i, c);
    FindAllCharFree(m, s, i, c);
  }

  lemma {:induction false} GapsCharFree(m: Matcher, s: string, i: nat, c: char)
    requires i <= |s| && c !in s[i..]
    ensures CharFree(Gaps(m, s, i), c)
    decreases |s| - i
  {
    if i < |s| {
      var n := MatchLength(m, s, i);
      assert s[i..] == [s[i]] + s[i + 1..];
      if n == 0 {
        GapsCharFree(m, s, i + 1, c);
        PrependCharFree(s[i], Gaps(m, s, i + 1), c);
      } else {
        assert s[i..] == s[i..i + n] + s[i + n..];
        GapsCharFree(m, s, i + n, c);
      }
    }
  }

  lemma PrependCharFree(x: char, gaps: seq<string>, c: char)
    requires |gaps| >= 1 && x != c && CharFree(gaps, c)
    ensures CharFree([[x] + gaps[0]] + gaps[1..], c)
  {
    var g := [[x] + gaps[0]] + gaps[1..];
    forall k | 0 <= k < |g|
      ensures c !in g[k]
    {
      if k == 0 {
        assert c !in gaps[0];
      } else {
        assert g[k] == gaps[k];
      }
    }
  }

  lemma {:induction false} FindAllCharFree(m: Matcher, s: string, i: nat, c: char)
    requires i <= |s| && c !in s[i..]
    ensures CharFree(FindAll(m, s, i), c)
    decreases |s| - i
  {
    if i < |s| {
      var n := MatchLength(m, s, i);
      assert s[i..] == [s[i]] + s[i + 1..];
      if n == 0 {
        FindAllCharFree(m, s, i + 1, c);
      } else {
        assert s[i..] == s[i..i + n] + s[i + n..];
        FindAllCharFree(m, s, i + n, c);
      }
    }
  }

  // ---------------------------------------------------------------------------
  // Restoration: `for v in vals: text = text.replace(ph, v, 1)`
  // ---------------------------------------------------------------------------

  function RestoreAll(s: string, ph: string, vals: seq<string>): string
    decreases |vals|
  {
    if vals == [] then s else RestoreAll(ReplaceFirst(s, ph, vals[0]), ph, vals[1..])
  }

  /** One more loop iteration is one more `replace(ph, v, 1)` on the text so far. */
  lemma {:induction false} RestoreAllSnoc(s: string, ph: string, vals: seq<string>, v: string)
    ensures RestoreAll(s, ph, vals + [v]) == ReplaceFirst(RestoreAll(s, ph, vals), ph, v)
    decreases |vals|
  {
    if vals != [] {
      assert (vals + [v])[1..] == vals[1..] + [v];
      RestoreAllSnoc(ReplaceFirst(s, ph, vals[0]), ph, vals[1..], v);
    }
  }

  /** A placeholder whose first character (its marker) occurs in it only once. */
  predicate Marker(ph: string) {
    |ph| >= 2 && ph[0] !in ph[1..]
  }

  /** When nothing before a placeholder holds its marker, `replace(ph, v, 1)` hits that placeholder. */
  lemma ReplaceFirstAtMarker(pre: string, ph: string, post: string, v: string)
    requires |ph| >= 1 && ph[0] !in pre
    ensures ReplaceFirst(pre + ph + post, ph, v) == pre + v + post
  {
    var s := pre + ph + post;
    assert OccursAt(s, ph, |pre|);
    forall j | 0 <= j < |pre| ensures !OccursAt(s, ph, j) {
      assert s[j] == pre[j];
      assert j + |ph| <= |s| ==> s[j..j + |ph|][0] == s[j];
    }
    assert s[..|pre|] == pre;
    assert s[|pre| + |ph|..] == post;
  }

  /**
   * Restoring into a text made of marker-free gaps and placeholders puts the
   * values, verbatim and in order, into the placeholders' slots.
   */
  lemma {:induction false} RestoreTemplate(pre: string, gaps: seq<string>, ph: string, vals: seq<string>)
    requires |ph| >= 1 && |gaps| == |vals| + 1
    requires ph[0] !in pre && CharFree(gaps, ph[0]) && CharFree(vals, ph[0])
    ensures RestoreAll(pre + Fill(gaps, Repeat(ph, |vals|)), ph, vals) == pre + Fill(gaps, vals)
    decreases |vals|
  {
    if vals != [] {
      var pre' := pre + gaps[0] + vals[0];
      assert ph[0] !in gaps[0] && ph[0] !in vals[0];
      RestoreTemplateHead(pre, gaps, ph, vals);
      FillHead(pre, gaps, vals);
      assert CharFree(gaps[1..], ph[0]) && CharFree(vals[1..], ph[0]) by {
        assert forall k :: 0 <= k < |gaps| - 1 ==> gaps[1..][k] == gaps[k + 1];
        assert forall k :: 0 <= k < |vals| - 1 ==> vals[1..][k] == vals[k + 1];
      }
      RestoreTemplate(pre', gaps[1..], ph, vals[1..]);
    }
  }

  /** The first iteration of the restore loop fills the first slot and leaves the rest of the template. */
  lemma RestoreTemplateHead(pre: string, gaps: seq<string>, ph: string, vals: seq<string>)
    requires |ph| >= 1 && |gaps| == |vals| + 1 && vals != []
    requires ph[0] !in pre && ph[0] !in gaps[0]
    ensures RestoreAll(pre + Fill(gaps, Repeat(ph, |vals|)), ph, vals)
      == RestoreAll((pre + gaps[0] + vals[0]) + Fill(gaps[1..], Repeat(ph, |vals| - 1)), ph, vals[1..])
  {
    var n := |vals|;
    var r := Repeat(ph, n);
    var rest := Fill(gaps[1..], Repeat(ph, n - 1));
    assert r[0] == ph && r[1..] == Repeat(ph, n - 1);
    var t := pre + Fill(gaps, r);
    assert t == (pre + gaps[0]) + ph + rest;
    ReplaceFirstAtMarker(pre + gaps[0], ph, rest, vals[0]);
  }

  lemma FillHead(pre: string, gaps: seq<string>, vals: seq<string>)
    requires |gaps| == |vals| + 1 && vals != []
    ensures (pre + gaps[0] + vals[0]) + Fill(gaps[1..], vals[1..]) == pre + Fill(gaps, vals)
  {
  }

  /**
   * Protecting the matches of `m` behind `ph` and restoring the captured
   * values gives back the original text, provided the text never holds the
   * placeholder's marker.
   */
  lemma ProtectRestoreRoundTrip(m: Matcher, ph: string, s: string)
    requires |ph| >= 1 && ph[0] !in s
    ensures RestoreAll(Sub(m, Constant(ph), s, 0), ph, FindAll(m, s, 0)) == s
  {
    var found, gaps := FindAll(m, s, 0), Gaps(m, s, 0);
    SubConstant(m, ph, s, 0);
    ScanDecomposes(m, s, 0);
    ScanCharFree(m, s, 0, ph[0]);
    RestoreTemplate("", gaps, ph, found);
    assert "" + Fill(gaps, Repeat(ph, |found|)) == Fill(gaps, Repeat(ph, |found|));
    assert "" + Fill(gaps, found) == Fill(gaps, found);
    assert s[0..] == s;
  }

  /** The total length of a list of matched texts. */
  function TotalLength(ws: seq<string>): nat {
    if ws == [] then 0 else |ws[0]| + TotalLength(ws[1..])
  }

  /**
   * Substituting `''` deletes exactly the matched characters, and a text the
   * pattern does not match is returned as it is.
   */
  lemma {:induction false} SubDeletes(m: Matcher, s: string, i: nat)
    requires i <= |s|
    ensures |Sub(m, Constant(""), s, i)| + TotalLength(FindAll(m, s, i)) == |s| - i
    ensures FindAll(m, s, i) == [] ==> Sub(m, Constant(""), s, i) == s[i..]
    decreases |s| - i
  {
    if i < |s| {
      var n := MatchLength(m, s, i);
      if n == 0 {
        SubDeletes(m, s, i + 1);
        assert s[i..] == [s[i]] + s[i + 1..];
      } else {
        SubDeletes(m, s, i + n);
        assert FindAll(m, s, i)[1..] == FindAll(m, s, i + n);
      }
    }
  }

  /** Substituting a fixed placeholder leaves the gaps with one copy of it per match. */
  lemma SubConstant(m: Matcher, ph: string, s: string, i: nat)
    requires i <= |s|
    ensures |Gaps(m, s, i)| == |FindAll(m, s, i)| + 1
    ensures Sub(m, Constant(ph), s, i) == Fill(Gaps(m, s, i), Repeat(ph, |FindAll(m, s, i)|))
  {
    SubFillsGaps(m, Constant(ph), s, i);
    var found := FindAll(m, s, i);
    assert Apply(Constant(ph), found) == Repeat(ph, |found|);
  }

  // ---------------------------------------------------------------------------
  // Well-placed placeholders and their slots
  // ---------------------------------------------------------------------------

  /** Every occurrence of the marker of `ph` in `s` starts a whole copy of `ph`. */
  ghost predicate WellPlaced(s: string, ph: string)
    requires |ph| >= 1
  {
    forall i :: 0 <= i < |s| && s[i] == ph[0] ==> OccursAt(s, ph, i)
  }

  /** The stretches of `s` between the copies of `ph`, left to right. */
  function Slots(s: string, ph: string): (g: seq<string>)
    requires |ph| >= 1
    decreases |s|
    ensures |g| >= 1
  {
    match IndexOf(s, ph, 0)
    case None => [s]
    case Some(k) => [s[..k]] + Slots(s[k + |ph|..], ph)
  }

  lemma WellPlacedSuffix(pre: string, s: string, ph: string)
    requires |ph| >= 1 && WellPlaced(pre + s, ph)
    ensures WellPlaced(s, ph)
  {
    forall i | 0 <= i < |s| && s[i] == ph[0] ensures OccursAt(s, ph, i) {
      assert (pre + s)[|pre| + i] == s[i];
      assert OccursAt(pre + s, ph, |pre| + i);
      assert (pre + s)[|pre| + i..|pre| + i + |ph|] == s[i..i + |ph|];
    }
  }

  /** A piece that stops right before another placeholder's marker keeps its copies whole. */
  lemma WellPlacedPrefix(s: string, post: string, ph: string)
    requires |ph| >= 1 && WellPlaced(s + post, ph)
    requires post == [] || post[0] !in ph
    ensures WellPlaced(s, ph)
  {
    forall i | 0 <= i < |s| && s[i] == ph[0] ensures OccursAt(s, ph, i) {
      var t := s + post;
      assert t[i] == s[i];
      OccurrenceChars(t, ph, i);
      assert |s| < |t| ==> t[|s|] == post[0];
      assert t[i..i + |ph|] == s[i..i + |ph|];
    }
  }

  lemma OccurrenceChars(t: string, ph: string, i: nat)
    requires OccursAt(t, ph, i)
    ensures forall j :: i <= j < i + |ph| ==> t[j] == ph[j - i]
  {
    forall j | i <= j < i + |ph| ensures t[j] == ph[j - i] {
      assert t[i..i + |ph|][j - i] == t[j];
    }
  }

  lemma WellPlacedConcat(a: string, b: string, ph: string)
    requires |ph| >= 1 && WellPlaced(a, ph) && WellPlaced(b, ph)
    ensures WellPlaced(a + b, ph)
  {
    var t := a + b;
    forall i | 0 <= i < |t| && t[i] == ph[0] ensures OccursAt(t, ph, i) {
      if i < |a| {
        assert OccursAt(a, ph, i);
        assert t[i..i + |ph|] == a[i..i + |ph|];
      } else {
        assert b[i - |a|] == t[i];
        assert OccursAt(b, ph, i - |a|);
        assert t[i..i + |ph|] == b[i - |a|..i - |a| + |ph|];
      }
    }
  }

  /** The text is its slots filled with one placeholder copy per marker, and no slot holds the marker. */
  ghost predicate SlotsFill(s: string, ph: string)
    requires |ph| >= 1
  {
    && |Slots(s, ph)| == multiset(s)[ph[0]] + 1
    && CharFree(Slots(s, ph), ph[0])
    && s == Fill(Slots(s, ph), Repeat(ph, multiset(s)[ph[0]]))
  }

  /**
   * A text whose placeholders are well placed is its slots filled with
   * copies of the placeholder: one copy per marker, and no marker in a slot.
   */
  lemma SlotsTemplate(s: string, ph: string)
    requires Marker(ph) && WellPlaced(s, ph)
    ensures |Slots(s, ph)| == multiset(s)[ph[0]] + 1
    ensures CharFree(Slots(s, ph), ph[0])
    ensures s == Fill(Slots(s, ph), Repeat(ph, multiset(s)[ph[0]]))
  {
    SlotsFillFrom(s, ph);
  }

  lemma {:induction false} SlotsFillFrom(s: string, ph: string)
    requires Marker(ph) && WellPlaced(s, ph)
    ensures SlotsFill(s, ph)
    decreases |s|
  {
    match IndexOf(s, ph, 0)
    case None =>
      NoCopyNoMarker(s, ph);
    case Some(k) =>
      LeftmostCopy(s, ph, k);
      WellPlacedSuffix(s[..k] + ph, s[k + |ph|..], ph);
      SlotsFillFrom(s[k + |ph|..], ph);
      SlotsTemplateStep(s, ph, k);
  }

  /** One step of `SlotsTemplate`: the leftmost copy splits off the first slot. */
  lemma SlotsTemplateStep(s: string, ph: string, k: nat)
    requires Marker(ph) && IndexOf(s, ph, 0) == Some(k)
    requires s == s[..k] + ph + s[k + |ph|..] && ph[0] !in s[..k]
    requires SlotsFill(s[k + |ph|..], ph)
    ensures SlotsFill(s, ph)
  {
    var pre, post := s[..k], s[k + |ph|..];
    var g := Slots(post, ph);
    assert Slots(s, ph) == [pre] + g;
    CountStep(pre, ph, post);
    FillStep(pre, ph, g, multiset(post)[ph[0]]);
    CharFreeCons(pre, g, ph[0]);
  }

  lemma CharFreeCons(x: string, g: seq<string>, c: char)
    requires c !in x && CharFree(g, c)
    ensures CharFree([x] + g, c)
  {
    forall j | 0 <= j < |[x] + g| ensures c !in ([x] + g)[j] {
      if j > 0 {
        assert ([x] + g)[j] == g[j - 1];
      }
    }
  }

  lemma CountStep(pre: string, ph: string, post: string)
    requires Marker(ph) && ph[0] !in pre
    ensures multiset(pre + ph + post)[ph[0]] == multiset(post)[ph[0]] + 1
  {
    MarkerOnce(ph);
    assert multiset(pre + ph + post) == multiset(pre) + multiset(ph) + multiset(post);
  }

  lemma FillStep(pre: string, ph: string, g: seq<string>, n: nat)
    requires |g| == n + 1
    ensures Fill([pre] + g, Repeat(ph, n + 1)) == pre + ph + Fill(g, Repeat(ph, n))
  {
    assert ([pre] + g)[1..] == g;
    assert Repeat(ph, n + 1)[1..] == Repeat(ph, n);
  }

  lemma NoCopyNoMarker(s: string, ph: string)
    requires |ph| >= 1 && WellPlaced(s, ph) && IndexOf(s, ph, 0).None?
    ensures ph[0] !in s
  {
    forall i: nat | i < |s| ensures s[i] != ph[0] {
      assert s[i] == ph[0] ==> OccursAt(s, ph, i);
    }
  }

  /** The leftmost copy of a well-placed placeholder has no marker before it. */
  lemma LeftmostCopy(s: string, ph: string, k: nat)
    requires |ph| >= 1 && WellPlaced(s, ph) && IndexOf(s, ph, 0) == Some(k)
    ensures s == s[..k] + ph + s[k + |ph|..]
    ensures ph[0] !in s[..k]
  {
    CopyAt(s, ph, k);
    NoMarkerBefore(s, ph, k);
  }

  lemma CopyAt(s: string, ph: string, k: nat)
    requires OccursAt(s, ph, k)
    ensures s == s[..k] + ph + s[k + |ph|..]
  {
    var e := k + |ph|;
    assert s[..k] + s[k..e] == s[..e];
    assert s[..e] + s[e..] == s;
  }

  /** Before a well-placed text's first copy no marker occurs, since each marker starts a copy. */
  lemma NoMarkerBefore(s: string, ph: string, k: nat)
    requires |ph| >= 1 && WellPlaced(s, ph) && k <= |s|
    requires forall j :: 0 <= j < k ==> !OccursAt(s, ph, j)
    ensures ph[0] !in s[..k]
  {
    forall i: nat | i < k ensures s[..k][i] != ph[0] {
      assert s[i] == ph[0] ==> OccursAt(s, ph, i);
    }
  }

  lemma MarkerOnce(ph: string)
    requires Marker(ph)
    ensures multiset(ph)[ph[0]] == 1
  {
    assert ph == [ph[0]] + ph[1..];
  }

  /**
   * Why the restore lemmas need marker-free values: restoring the value `a`
   * for the placeholder `ab` into `abb` (one copy, one value) rebuilds a
   * copy from the value and the text after it, so a placeholder survives.
   */
  lemma RestoreCanLeavePlaceholder()
    ensures Marker("ab") && WellPlaced("abb", "ab") && multiset("abb")['a'] == |["a"]|
    ensures !CharFree(["a"], 'a')
    ensures RestoreAll("abb", "ab", ["a"]) == "ab"
    ensures Contains(RestoreAll("abb", "ab", ["a"]), "ab")
  {
    assert "abb"[0..2] == "ab";
    assert OccursAt("abb", "ab", 0);
    assert IndexOf("abb", "ab", 0) == Some(0);
    assert ReplaceFirst("abb", "ab", "a") == "" + "a" + "b";
    assert RestoreAll("abb", "ab", ["a"]) == RestoreAll("ab", "ab", []);
    assert "ab"[0..2] == "ab";
    assert IndexOf("ab", "ab", 0) == Some(0);
  }

  /**
   * The restore loop on a text with well-placed placeholders, one value per
   * placeholder: the values land verbatim, in order, in the slots, and no
   * copy of the placeholder survives.
   */
  lemma RestoreFillsSlots(s: string, ph: string, vals: seq<string>)
    requires Marker(ph) && WellPlaced(s, ph)
    requires multiset(s)[ph[0]] == |vals| && CharFree(vals, ph[0])
    ensures |Slots(s, ph)| == |vals| + 1 && RestoreAll(s, ph, vals) == Fill(Slots(s, ph), vals)
    ensures ph[0] !in RestoreAll(s, ph, vals)
    ensures !Contains(RestoreAll(s, ph, vals), ph)
  {
    SlotsTemplate(s, ph);
    RestoreTemplate("", Slots(s, ph), ph, vals);
    assert "" + s == s;
    FillCharFree(Slots(s, ph), vals, ph[0]);
    ContainsChar(RestoreAll(s, ph, vals), ph);
  }

  /** Slots are pieces of the text: they hold no character it lacks. */
  lemma {:induction false} SlotsCharFree(s: string, ph: string, c: char)
    requires |ph| >= 1 && c !in s
    ensures CharFree(Slots(s, ph), c)
    decreases |s|
  {
    match IndexOf(s, ph, 0)
    case None =>
    case Some(k) =>
      assert s == s[..k] + s[k..k + |ph|] + s[k + |ph|..];
      SlotsCharFree(s[k + |ph|..], ph, c);
  }

  /** A marker-led placeholder is well placed in itself and holds its marker once. */
  lemma MarkerWellPlaced(ph: string)
    requires Marker(ph)
    ensures WellPlaced(ph, ph) && multiset(ph)[ph[0]] == 1
  {
    assert OccursAt(ph, ph, 0);
    forall i | 1 <= i < |ph| ensures ph[i] != ph[0] {
      assert ph[i] == ph[1..][i - 1];
    }
    MarkerOnce(ph);
  }

  /** A text without the marker is trivially well placed and holds no marker. */
  lemma MarkerFreeWellPlaced(g: string, ph: string)
    requires |ph| >= 1 && ph[0] !in g
    ensures WellPlaced(g, ph) && multiset(g)[ph[0]] == 0
  {
    assert forall i :: 0 <= i < |g| ==> g[i] != ph[0];
  }

  /** The template of `n` placeholder copies between the gaps: well placed, with `n` markers. */
  ghost predicate TemplateMarked(gaps: seq<string>, ph: string, n: nat)
    requires |ph| >= 1 && |gaps| == n + 1
  {
    WellPlaced(Fill(gaps, Repeat(ph, n)), ph) && multiset(Fill(gaps, Repeat(ph, n)))[ph[0]] == n
  }

  /** Placeholder copies fill marker-free gaps into a text where they are well placed. */
  lemma TemplateWellPlaced(gaps: seq<string>, ph: string, n: nat)
    requires Marker(ph) && |gaps| == n + 1 && CharFree(gaps, ph[0])
    ensures WellPlaced(Fill(gaps, Repeat(ph, n)), ph)
    ensures multiset(Fill(gaps, Repeat(ph, n)))[ph[0]] == n
  {
    TemplateMarkedFrom(gaps, ph, n);
  }

  lemma {:induction false} TemplateMarkedFrom(gaps: seq<string>, ph: string, n: nat)
    requires Marker(ph) && |gaps| == n + 1 && CharFree(gaps, ph[0])
    ensures TemplateMarked(gaps, ph, n)
    decreases n
  {
    assert ph[0] !in gaps[0];
    MarkerFreeWellPlaced(gaps[0], ph);
    if n > 0 {
      assert CharFree(gaps[1..], ph[0]) by {
        forall k | 0 <= k < |gaps[1..]| ensures ph[0] !in gaps[1..][k] {
          assert gaps[1..][k] == gaps[k + 1];
        }
      }
      TemplateMarkedFrom(gaps[1..], ph, n - 1);
      TemplateMarkedStep(gaps, ph, n);
    }
  }

  /** One more placeholder copy and gap in front of a template keep it well placed and add one marker. */
  lemma TemplateMarkedStep(gaps: seq<string>, ph: string, n: nat)
    requires Marker(ph) && |gaps| == n + 1 && n > 0 && ph[0] !in gaps[0]
    requires TemplateMarked(gaps[1..], ph, n - 1)
    ensures TemplateMarked(gaps, ph, n)
  {
    var rest := Fill(gaps[1..], Repeat(ph, n - 1));
    assert Repeat(ph, n)[1..] == Repeat(ph, n - 1);
    MarkerFreeWellPlaced(gaps[0], ph);
    MarkerWellPlaced(ph);
    WellPlacedConcat(ph, rest, ph);
    WellPlacedConcat(gaps[0], ph + rest, ph);
    assert gaps[0] + (ph + rest) == Fill(gaps, Repeat(ph, n));
  }

  /**
   * Replacing the copies of `ph` by values that lack the marker of another
   * placeholder `q` keeps the copies of `q` whole and their number unchanged,
   * as long as neither placeholder holds the other's marker.
   */
  lemma {:induction false} FillKeepsOther(gaps: seq<string>, ph: string, vals: seq<string>, q: string)
    requires |ph| >= 1 && |q| >= 1 && q[0] !in ph && ph[0] !in q
    requires |gaps| == |vals| + 1 && CharFree(vals, q[0])
    requires WellPlaced(Fill(gaps, Repeat(ph, |vals|)), q)
    ensures WellPlaced(Fill(gaps, vals), q)
    ensures multiset(Fill(gaps, vals))[q[0]] == multiset(Fill(gaps, Repeat(ph, |vals|)))[q[0]]
    decreases |vals|
  {
    if vals != [] {
      var n := |vals|;
      var rest := Fill(gaps[1..], Repeat(ph, n - 1));
      assert Repeat(ph, n)[1..] == Repeat(ph, n - 1);
      assert Fill(gaps, Repeat(ph, n)) == gaps[0] + (ph + rest);
      WellPlacedPrefix(gaps[0], ph + rest, q);
      assert gaps[0] + (ph + rest) == (gaps[0] + ph) + rest;
      WellPlacedSuffix(gaps[0] + ph, rest, q);
      FillKeepsOther(gaps[1..], ph, vals[1..], q);
      var v := vals[0];
      assert q[0] !in v;
      assert WellPlaced(v, q);
      var tail := Fill(gaps[1..], vals[1..]);
      WellPlacedConcat(v, tail, q);
      WellPlacedConcat(gaps[0], v + tail, q);
      assert Fill(gaps, vals) == gaps[0] + (v + tail);
      assert multiset(ph)[q[0]] == 0 && multiset(v)[q[0]] == 0;
    }
  }
}
