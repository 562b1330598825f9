/**
 * The tweet normaliser of `src/dataset_normalizer.py`: `preprocess_text`
 * protects mentions and URLs behind placeholders, rewrites the rest of the
 * text in a fixed order and puts the protected values back one at a time;
 * `post_process_text` and `fix_for_tagger` are small pure rewrites.
 */
module Normalizer {
  import opened Wrappers
  import opened Text
  import opened Regex

  // ---------------------------------------------------------------------------
  // Elongation: the pattern `(.)\1{3,}` replaced by `\1\1\1`
  // ---------------------------------------------------------------------------

  /** The length of the run of copies of `s[i]` that starts at `i`. */
  function RunLength(s: string, i: nat): (n: nat)
    requires i < |s|
    ensures 1 <= n <= |s| - i
    ensures forall j :: i <= j < i + n ==> s[j] == s[i]
    ensures i + n < |s| ==> s[i + n] != s[i]
    decreases |s| - i
  {
    if i + 1 < |s| && s[i + 1] == s[i] then 1 + RunLength(s, i + 1) else 1
  }

  /** The elongation pattern: a character followed by at least three more copies of it, greedily. */
  function Elongation(s: string, i: nat): nat {
    if i < |s| && RunLength(s, i) >= 4 then RunLength(s, i) else 0
  }

  /** The replacement `\1\1\1`: three copies of the repeated character. */
  function ThreeOf(m: string): string {
    if m == [] then [] else [m[0], m[0], m[0]]
  }

  function Rep(c: char, k: nat): (r: string)
    ensures |r| == k && forall j :: 0 <= j < k ==> r[j] == c
  {
    seq(k, _ => c)
  }

  function Min(a: nat, b: nat): nat {
    if a <= b then a else b
  }

  /**
   * The intended meaning of the elongation step, run by run: every maximal
   * run of one character keeps at most three of its copies.
   */
  function Shrink(s: string): string {
    ShrinkFrom(s, 0)
  }

  /** `Shrink` of the suffix of `s` that starts at `i`. */
  function ShrinkFrom(s: string, i: nat): string
    requires i <= |s|
    decreases |s| - i
  {
    if i == |s| then []
    else
      var n := RunLength(s, i);
      Rep(s[i], Min(n, 3)) + ShrinkFrom(s, i + n)
  }

  /** Runs look only forward, so a suffix sees the same runs. */
  lemma {:induction false} RunLengthSuffix(s: string, i: nat, j: nat)
    requires i + j < |s|
    ensures RunLength(s, i + j) == RunLength(s[i..], j)
    decreases |s| - (i + j)
  {
    if i + j + 1 < |s| && s[i + j + 1] == s[i + j] {
      RunLengthSuffix(s, i, j + 1);
    }
  }

  /** The elongation scan at the start of a run of four or more: the run becomes three copies. */
  lemma ElongationLongStep(s: string, i: nat)
    requires i < |s| && RunLength(s, i) >= 4
    ensures Sub(Elongation, ThreeOf, s, i) == Rep(s[i], 3) + Sub(Elongation, ThreeOf, s, i + RunLength(s, i))
  {
    var n := RunLength(s, i);
    assert MatchLength(Elongation, s, i) == n;
    assert s[i..i + n][0] == s[i];
    assert ThreeOf(s[i..i + n]) == Rep(s[i], 3);
  }

  /** The elongation scan at a shorter run: its first character is copied. */
  lemma ElongationShortStep(s: string, i: nat)
    requires i < |s| && RunLength(s, i) < 4
    ensures Sub(Elongation, ThreeOf, s, i) == [s[i]] + Sub(Elongation, ThreeOf, s, i + 1)
  {
    assert MatchLength(Elongation, s, i) == 0;
  }

  /** The elongation substitution from `i` agrees with `ShrinkFrom`. */
  ghost predicate ShrinksFrom(s: string, i: nat)
    requires i <= |s|
  {
    Sub(Elongation, ThreeOf, s, i) == ShrinkFrom(s, i)
  }

  /** `PTN_elongation.sub(r'\1\1\1', s)` computes `Shrink`, from any starting index. */
  lemma ElongationSubIsShrink(s: string, i: nat)
    requires i <= |s|
    ensures Sub(Elongation, ThreeOf, s, i) == ShrinkFrom(s, i)
  {
    ElongationShrinks(s, i);
  }

  lemma {:induction false} ElongationShrinks(s: string, i: nat)
    requires i <= |s|
    ensures ShrinksFrom(s, i)
    decreases |s| - i
  {
    if i == |s| {
    } else if RunLength(s, i) >= 4 {
      ElongationShrinks(s, i + RunLength(s, i));
      LongRun(s, i);
    } else {
      ElongationShrinks(s, i + 1);
      ShortRun(s, i);
    }
  }

  /** A run of four or more is matched whole and becomes three copies. */
  lemma LongRun(s: string, i: nat)
    requires i < |s| && RunLength(s, i) >= 4
    requires ShrinksFrom(s, i + RunLength(s, i))
    ensures ShrinksFrom(s, i)
  {
    ElongationLongStep(s, i);
    ShrinkLongStep(s, i);
    SameTail(Sub(Elongation, ThreeOf, s, i), ShrinkFrom(s, i), Rep(s[i], 3),
      Sub(Elongation, ThreeOf, s, i + RunLength(s, i)), ShrinkFrom(s, i + RunLength(s, i)));
  }

  lemma ShrinkLongStep(s: string, i: nat)
    requires i < |s| && RunLength(s, i) >= 4
    ensures ShrinkFrom(s, i) == Rep(s[i], 3) + ShrinkFrom(s, i + RunLength(s, i))
  {
  }

  lemma SameTail(x: string, y: string, p: string, a: string, b: string)
    requires x == p + a && y == p + b && a == b
    ensures x == y
  {
  }

  /** A run of at most three is not matched: its characters are copied one at a time. */
  lemma ShortRun(s: string, i: nat)
    requires i < |s| && RunLength(s, i) < 4
    requires ShrinksFrom(s, i + 1)
    ensures ShrinksFrom(s, i)
  {
    ElongationShortStep(s, i);
    ShortRunStep(s, i);
    SameTail(Sub(Elongation, ThreeOf, s, i), ShrinkFrom(s, i), [s[i]],
      Sub(Elongation, ThreeOf, s, i + 1), ShrinkFrom(s, i + 1));
  }

  lemma ShortRunStep(s: string, i: nat)
    requires i < |s| && RunLength(s, i) < 4
    ensures ShrinkFrom(s, i) == [s[i]] + ShrinkFrom(s, i + 1)
  {
    if RunLength(s, i) == 1 {
      assert Rep(s[i], 1) == [s[i]];
    } else {
      RunInside(s, i);
    }
  }

  /** Inside a short run, the scan that starts one character later sees a run one shorter. */
  lemma RunInside(s: string, i: nat)
    requires i < |s| && 2 <= RunLength(s, i) <= 3
    ensures [s[i]] + ShrinkFrom(s, i + 1) == ShrinkFrom(s, i)
  {
    var r, c := RunLength(s, i), s[i];
    assert s[i + 1] == c;
    assert RunLength(s, i + 1) == r - 1;
    ShrinkBlock(s, i);
    ShrinkBlock(s, i + 1);
    RepCons(c, r - 1, ShrinkFrom(s, i + r));
  }

  lemma RepCons(c: char, k: nat, x: string)
    ensures [c] + (Rep(c, k) + x) == Rep(c, k + 1) + x
  {
    assert [c] + Rep(c, k) == Rep(c, k + 1);
  }

  lemma ShrinkHead(s: string, i: nat)
    requires i < |s|
    ensures ShrinkFrom(s, i) != [] && ShrinkFrom(s, i)[0] == s[i]
  {
  }

  /** No run of one character is longer than three. */
  predicate ShortRuns(t: string) {
    forall j :: 0 <= j < |t| ==> RunLength(t, j) <= 3
  }

  /** A run inside a block that the next block does not continue ends with the block. */
  lemma {:induction false} RunLengthBlock(c: char, k: nat, b: string, j: nat)
    requires j < k && (b == [] || b[0] != c)
    ensures RunLength(Rep(c, k) + b, j) == k - j
    decreases k - j
  {
    var t := Rep(c, k) + b;
    if j + 1 < k {
      RunLengthBlock(c, k, b, j + 1);
    } else {
      assert j + 1 < |t| ==> t[j + 1] == b[0];
    }
  }

  /** After a block, the runs of the concatenation are those of the rest. */
  lemma RunLengthAfter(a: string, b: string, j: nat)
    requires j < |b|
    ensures RunLength(a + b, |a| + j) == RunLength(b, j)
  {
    RunLengthSuffix(a + b, |a|, j);
    assert (a + b)[|a|..] == b;
  }

  /** The shrunk suffix from `i` has no run longer than three. */
  ghost predicate ShortFrom(s: string, i: nat)
    requires i <= |s|
  {
    ShortRuns(ShrinkFrom(s, i))
  }

  /** After shrinking, no run is longer than three. */
  lemma {:induction false} ShrinkMaxRun(s: string, i: nat)
    requires i <= |s|
    ensures ShortFrom(s, i)
    decreases |s| - i
  {
    if i == |s| {
      assert ShrinkFrom(s, i) == [];
    } else {
      ShrinkMaxRun(s, i + RunLength(s, i));
      BlockMaxRun(s, i);
    }
  }

  lemma BlockMaxRun(s: string, i: nat)
    requires i < |s| && ShortFrom(s, i + RunLength(s, i))
    ensures ShortFrom(s, i)
  {
    var n := RunLength(s, i);
    var c, k := s[i], Min(n, 3);
    var rest := ShrinkFrom(s, i + n);
    if i + n < |s| {
      ShrinkHead(s, i + n);
      assert rest[0] == s[i + n] != c;
    } else {
      assert rest == [];
    }
    assert ShortRuns(rest);
    ShrinkBlock(s, i);
    RunsOfBlock(c, k, rest, ShrinkFrom(s, i));
  }

  /** `ShrinkFrom` at `i` is the shortened run at `i`, then the rest. */
  lemma ShrinkBlock(s: string, i: nat)
    requires i < |s|
    ensures ShrinkFrom(s, i) == Rep(s[i], Min(RunLength(s, i), 3)) + ShrinkFrom(s, i + RunLength(s, i))
  {
    var n := RunLength(s, i);
    assert i + n <= |s|;
    assert ShrinkFrom(s, i) == Rep(s[i], Min(n, 3)) + ShrinkFrom(s, i + n);
  }

  /** A block of at most three copies followed by text that does not continue it adds no long run. */
  lemma RunsOfBlock(c: char, k: nat, rest: string, out: string)
    requires k <= 3 && (rest == [] || rest[0] != c)
    requires ShortRuns(rest) && out == Rep(c, k) + rest
    ensures ShortRuns(out)
  {
    forall j | 0 <= j < |out| ensures RunLength(out, j) <= 3 {
      if j < k {
        RunLengthBlock(c, k, rest, j);
      } else {
        RunLengthAfter(Rep(c, k), rest, j - k);
      }
    }
  }

  /** Shrinking from `i` leaves the suffix from `i` as it is. */
  ghost predicate KeptFrom(t: string, i: nat)
    requires i <= |t|
  {
    ShrinkFrom(t, i) == t[i..]
  }

  /** A text without runs longer than three is left alone. */
  lemma {:induction false} ShrinkFixed(t: string, i: nat)
    requires i <= |t|
    requires ShortRuns(t)
    ensures KeptFrom(t, i)
    decreases |t| - i
  {
    if i < |t| {
      ShrinkFixed(t, i + RunLength(t, i));
      ShortRunKept(t, i);
    }
  }

  lemma ShortRunKept(t: string, i: nat)
    requires i < |t| && RunLength(t, i) <= 3
    requires KeptFrom(t, i + RunLength(t, i))
    ensures KeptFrom(t, i)
  {
    var n := RunLength(t, i);
    assert Rep(t[i], n) == t[i..i + n];
    assert t[i..] == t[i..i + n] + t[i + n..];
    ShrinkBlock(t, i);
  }

  /** Shrinking twice is shrinking once. */
  lemma ShrinkIdempotent(s: string)
    ensures Shrink(Shrink(s)) == Shrink(s)
  {
    ShrinkMaxRun(s, 0);
    ShrinkFixed(Shrink(s), 0);
  }

  // ---------------------------------------------------------------------------
  // `preprocess_text`
  // ---------------------------------------------------------------------------

  /**
   * The compiled patterns and placeholder constants of `src/settings.py`
   * (not part of this model), with `html.unescape`, which is a foreign call.
   * `splitUrl` is the replacement `\1 http` of a concatenated-URL match.
   */
  datatype Settings = Settings(
    unescape: string -> string,
    rt: Matcher,
    whitespace: Matcher,
    concatenatedUrl: Matcher,
    splitUrl: string -> string,
    mention: Matcher,
    url: Matcher,
    year: Matcher,
    time: Matcher,
    cash: Matcher,
    hash: Matcher,
    mentionPlaceholder: string,
    urlPlaceholder: string)

  /** A cell of a tweet or profile column: a string, or a missing value (a float `NaN` in pandas). */
  datatype Cell = Str(text: string) | Missing

  /** Unescape, drop the RT sign, collapse whitespace, split concatenated URLs. */
  function Clean(S: Settings, s: string): string {
    var u := S.unescape(s);
    var noRt := Sub(S.rt, Constant(""), u, 0);
    var spaced := Sub(S.whitespace, Constant(" "), noRt, 0);
    Sub(S.concatenatedUrl, S.splitUrl, spaced, 0)
  }

  /** Year, time, cash and hash abstraction, in that order. */
  function Abstract(S: Settings, s: string): string {
    var years := Sub(S.year, Constant("slo_year"), s, 0);
    var times := Sub(S.time, Constant("slo_time"), years, 0);
    var cash := Sub(S.cash, Constant("slo_cash"), times, 0);
    Sub(S.hash, Constant("slo_hash"), cash, 0)
  }

  /** The destructive middle of the pipeline: shrink elongations, lowercase, abstract numbers. */
  function Middle(S: Settings, s: string): string {
    Abstract(S, Lower(Sub(Elongation, ThreeOf, s, 0)))
  }

  /** The mentions captured from the cleaned text. */
  function Mentions(S: Settings, c: string): seq<string> {
    FindAll(S.mention, c, 0)
  }

  /** The cleaned text with its mentions protected. */
  function MentionsProtected(S: Settings, c: string): string {
    Sub(S.mention, Constant(S.mentionPlaceholder), c, 0)
  }

  /** The URLs captured after the mentions were protected. */
  function Urls(S: Settings, c: string): seq<string> {
    FindAll(S.url, MentionsProtected(S, c), 0)
  }

  /** The text with mentions and URLs protected. */
  function Protected(S: Settings, c: string): string {
    Sub(S.url, Constant(S.urlPlaceholder), MentionsProtected(S, c), 0)
  }

  /**
   * What `preprocess_text` computes on a string, stage by stage: clean,
   * capture and protect mentions, then URLs, transform the middle, restore
   * URLs, then mentions.
   */
  function Normalize(S: Settings, s: string): string {
    var c := Clean(S, s);
    var mid := Middle(S, Protected(S, c));
    RestoreAll(RestoreAll(mid, S.urlPlaceholder, Urls(S, c)), S.mentionPlaceholder, Mentions(S, c))
  }

  /** One restore loop of `preprocess_text`: each captured value replaces the first remaining copy of the placeholder. */
  method PutBack(text: string, ph: string, vals: seq<string>) returns (r: string)
    ensures r == RestoreAll(text, ph, vals)
  {
    r := text;
    for k := 0 to |vals|
      invariant r == RestoreAll(text, ph, vals[..k])
    {
      RestoreAllSnoc(text, ph, vals[..k], vals[k]);
      assert vals[..k + 1] == vals[..k] + [vals[k]];
      r := ReplaceFirst(r, ph, vals[k]);
    }
    assert vals[..|vals|] == vals;
  }

  /**
   * `preprocess_text`: the text is reassigned stage by stage and the captured
   * values are put back by two replace-first loops. A cell that is not a
   * string makes `html.unescape` raise, and the handler logs and re-raises.
   */
  method PreprocessText(S: Settings, cell: Cell) returns (r: Result<string>)
    ensures cell.Missing? ==> r == Err(TypeError)
    ensures cell.Str? ==> r == Ok(Normalize(S, cell.text))
  {
    if cell.Missing? {
      return Err(TypeError);
    }
    var text := S.unescape(cell.text);
    text := Sub(S.rt, Constant(""), text, 0);
    text := Sub(S.whitespace, Constant(" "), text, 0);
    text := Sub(S.concatenatedUrl, S.splitUrl, text, 0);
    ghost var cleaned := text;

    var mentions := FindAll(S.mention, text, 0);
    text := Sub(S.mention, Constant(S.mentionPlaceholder), text, 0);
    var urls := FindAll(S.url, text, 0);
    text := Sub(S.url, Constant(S.urlPlaceholder), text, 0);

    text := Sub(Elongation, ThreeOf, text, 0);
    text := Lower(text);
    text := Sub(S.year, Constant("slo_year"), text, 0);
    text := Sub(S.time, Constant("slo_time"), text, 0);
    text := Sub(S.cash, Constant("slo_cash"), text, 0);
    text := Sub(S.hash, Constant("slo_hash"), text, 0);
    assert text == Middle(S, Protected(S, cleaned));

    text := PutBack(text, S.urlPlaceholder, urls);
    text := PutBack(text, S.mentionPlaceholder, mentions);
    return Ok(text);
  }

  // ---------------------------------------------------------------------------
  // What the protection guarantees
  // ---------------------------------------------------------------------------

  /**
   * The placeholder assumption: each placeholder starts with a marker
   * character that occurs in it only there and not in the other placeholder.
   */
  predicate Placeholders(S: Settings) {
    && Marker(S.urlPlaceholder) && Marker(S.mentionPlaceholder)
    && S.urlPlaceholder[0] !in S.mentionPlaceholder
    && S.mentionPlaceholder[0] !in S.urlPlaceholder
  }

  /** `t` holds the same number of whole copies of `p` and of `q` as `s`. */
  ghost predicate KeptIn(s: string, t: string, p: string, q: string)
    requires |p| >= 1 && |q| >= 1
  {
    && WellPlaced(t, p) && WellPlaced(t, q)
    && multiset(t)[p[0]] == multiset(s)[p[0]]
    && multiset(t)[q[0]] == multiset(s)[q[0]]
  }

  /** A substitution that never touches a copy of `p` or `q`. */
  ghost predicate SubKeeps(m: Matcher, repl: string -> string, p: string, q: string)
    requires |p| >= 1 && |q| >= 1
  {
    forall s {:trigger Sub(m, repl, s, 0)} ::
      WellPlaced(s, p) && WellPlaced(s, q) ==> KeptIn(s, Sub(m, repl, s, 0), p, q)
  }

  predicate IsLetter(c: char) {
    'A' <= c <= 'Z' || 'a' <= c <= 'z'
  }

  /** A placeholder that lowercasing cannot change or create: it is lowercase and its marker is no letter. */
  predicate LowerSafe(p: string) {
    |p| >= 1 && Lower(p) == p && !IsLetter(p[0])
  }

  /** Lowercasing maps exactly the marker to the marker. */
  lemma {:induction false} LowerCount(s: string, c: char)
    requires !IsLetter(c)
    ensures multiset(Lower(s))[c] == multiset(s)[c]
    decreases |s|
  {
    if s != [] {
      LowerCount(s[1..], c);
      var t := Lower(s);
      assert t[1..] == Lower(s[1..]);
      CountCons(s, c);
      CountCons(t, c);
      assert (t[0] == c) == (s[0] == c);
    }
  }

  /** The count of `c` in a non-empty string: its first character, then the rest. */
  lemma CountCons(s: string, c: char)
    requires s != []
    ensures multiset(s)[c] == multiset(s[1..])[c] + (if s[0] == c then 1 else 0)
  {
    assert s == [s[0]] + s[1..];
    assert multiset(s) == multiset([s[0]]) + multiset(s[1..]);
  }

  /** Lowercasing keeps the copies of a lowercase placeholder whose marker is no letter. */
  lemma LowerKeeps(s: string, p: string)
    requires LowerSafe(p) && WellPlaced(s, p)
    ensures WellPlaced(Lower(s), p) && multiset(Lower(s))[p[0]] == multiset(s)[p[0]]
  {
    var t := Lower(s);
    forall i | 0 <= i < |t| && t[i] == p[0] ensures OccursAt(t, p, i) {
      assert s[i] == p[0];
      assert OccursAt(s, p, i);
      forall j | 0 <= j < |p| ensures t[i + j] == p[j] {
        assert s[i + j] == s[i..i + |p|][j];
        assert Lower(p)[j] == LowerChar(p[j]);
      }
      assert t[i..i + |p|] == p;
    }
    LowerCount(s, p[0]);
  }

  /** The middle stages keep both placeholders: the lowercase step by proof, the substitutions by assumption. */
  ghost predicate StagesKeep(S: Settings)
    requires Placeholders(S)
  {
    var u, m := S.urlPlaceholder, S.mentionPlaceholder;
    && SubKeeps(Elongation, ThreeOf, u, m)
    && LowerSafe(u) && LowerSafe(m)
    && SubKeeps(S.year, Constant("slo_year"), u, m)
    && SubKeeps(S.time, Constant("slo_time"), u, m)
    && SubKeeps(S.cash, Constant("slo_cash"), u, m)
    && SubKeeps(S.hash, Constant("slo_hash"), u, m)
  }

  lemma MiddleKeeps(S: Settings, s: string)
    requires Placeholders(S) && StagesKeep(S)
    requires WellPlaced(s, S.urlPlaceholder) && WellPlaced(s, S.mentionPlaceholder)
    ensures KeptIn(s, Middle(S, s), S.urlPlaceholder, S.mentionPlaceholder)
  {
    var u, m := S.urlPlaceholder, S.mentionPlaceholder;
    var shrunk := Sub(Elongation, ThreeOf, s, 0);
    SubKept(Elongation, ThreeOf, u, m, s);
    var lower := Lower(shrunk);
    LowerKeeps(shrunk, u);
    LowerKeeps(shrunk, m);
    KeptTrans(s, shrunk, lower, u, m);
    AbstractKeeps(S, lower);
    KeptTrans(s, lower, Middle(S, s), u, m);
  }

  lemma AbstractKeeps(S: Settings, s: string)
    requires Placeholders(S) && StagesKeep(S)
    requires WellPlaced(s, S.urlPlaceholder) && WellPlaced(s, S.mentionPlaceholder)
    ensures KeptIn(s, Abstract(S, s), S.urlPlaceholder, S.mentionPlaceholder)
  {
    var u, m := S.urlPlaceholder, S.mentionPlaceholder;
    var years := Sub(S.year, Constant("slo_year"), s, 0);
    SubKept(S.year, Constant("slo_year"), u, m, s);
    var times := Sub(S.time, Constant("slo_time"), years, 0);
    SubKept(S.time, Constant("slo_time"), u, m, years);
    KeptTrans(s, years, times, u, m);
    var cash := Sub(S.cash, Constant("slo_cash"), times, 0);
    SubKept(S.cash, Constant("slo_cash"), u, m, times);
    KeptTrans(s, times, cash, u, m);
    SubKept(S.hash, Constant("slo_hash"), u, m, cash);
    KeptTrans(s, cash, Abstract(S, s), u, m);
  }

  lemma SubKept(m: Matcher, repl: string -> string, p: string, q: string, s: string)
    requires |p| >= 1 && |q| >= 1 && SubKeeps(m, repl, p, q)
    requires WellPlaced(s, p) && WellPlaced(s, q)
    ensures KeptIn(s, Sub(m, repl, s, 0), p, q)
  {
  }

  lemma KeptTrans(a: string, b: string, c: string, p: string, q: string)
    requires |p| >= 1 && |q| >= 1 && KeptIn(a, b, p, q) && KeptIn(b, c, p, q)
    ensures KeptIn(a, c, p, q)
  {
  }

  /** URL protection neither captures a mention placeholder's marker nor cuts into one of its copies. */
  ghost predicate UrlsSpareMentions(S: Settings, c: string)
    requires Placeholders(S)
  {
    var m := S.mentionPlaceholder;
    && CharFree(Urls(S, c), m[0])
    && WellPlaced(Protected(S, c), m)
    && multiset(Protected(S, c))[m[0]] == multiset(MentionsProtected(S, c))[m[0]]
  }

  /** Protecting mentions leaves one whole placeholder per captured mention and nothing else with its marker. */
  lemma ProtectMentions(S: Settings, c: string)
    requires Placeholders(S)
    requires S.urlPlaceholder[0] !in c && S.mentionPlaceholder[0] !in c
    ensures WellPlaced(MentionsProtected(S, c), S.mentionPlaceholder)
    ensures multiset(MentionsProtected(S, c))[S.mentionPlaceholder[0]] == |Mentions(S, c)|
    ensures S.urlPlaceholder[0] !in MentionsProtected(S, c)
    ensures CharFree(Mentions(S, c), S.mentionPlaceholder[0]) && CharFree(Mentions(S, c), S.urlPlaceholder[0])
  {
    var u, m := S.urlPlaceholder, S.mentionPlaceholder;
    var gaps, n := Gaps(S.mention, c, 0), |Mentions(S, c)|;
    SubConstant(S.mention, m, c, 0);
    assert c[0..] == c;
    ScanCharFree(S.mention, c, 0, m[0]);
    ScanCharFree(S.mention, c, 0, u[0]);
    TemplateWellPlaced(gaps, m, n);
    FillCharFree(gaps, Repeat(m, n), u[0]);
  }

  /** Protecting URLs leaves one whole placeholder per captured URL. */
  lemma ProtectUrls(S: Settings, c: string)
    requires Placeholders(S)
    requires S.urlPlaceholder[0] !in MentionsProtected(S, c)
    ensures WellPlaced(Protected(S, c), S.urlPlaceholder)
    ensures multiset(Protected(S, c))[S.urlPlaceholder[0]] == |Urls(S, c)|
    ensures CharFree(Urls(S, c), S.urlPlaceholder[0])
  {
    var u, t1 := S.urlPlaceholder, MentionsProtected(S, c);
    var gaps, n := Gaps(S.url, t1, 0), |Urls(S, c)|;
    SubConstant(S.url, u, t1, 0);
    assert t1[0..] == t1;
    ScanCharFree(S.url, t1, 0, u[0]);
    TemplateWellPlaced(gaps, u, n);
  }

  /**
   * The normaliser's promise. Under the placeholder assumption, when the
   * cleaned text holds neither marker, the middle stages keep placeholders
   * whole and URL protection spares mention placeholders, the output is the
   * transformed text with the captured URLs and then the captured mentions
   * put back verbatim, in capture order, one per placeholder, and no
   * placeholder survives.
   */
  lemma NormalizeRestoresCaptured(S: Settings, s: string)
    requires Placeholders(S) && StagesKeep(S)
    requires S.urlPlaceholder[0] !in Clean(S, s) && S.mentionPlaceholder[0] !in Clean(S, s)
    requires UrlsSpareMentions(S, Clean(S, s))
    ensures var c := Clean(S, s);
      var mid := Middle(S, Protected(S, c));
      && |Slots(mid, S.urlPlaceholder)| == |Urls(S, c)| + 1
      && var back := Fill(Slots(mid, S.urlPlaceholder), Urls(S, c));
      && |Slots(back, S.mentionPlaceholder)| == |Mentions(S, c)| + 1
      && Normalize(S, s) == Fill(Slots(back, S.mentionPlaceholder), Mentions(S, c))
    ensures !Contains(Normalize(S, s), S.urlPlaceholder)
    ensures !Contains(Normalize(S, s), S.mentionPlaceholder)
  {
    var u, m := S.urlPlaceholder, S.mentionPlaceholder;
    var c := Clean(S, s);
    var urls, mentions := Urls(S, c), Mentions(S, c);
    var t2 := Protected(S, c);
    ProtectMentions(S, c);
    ProtectUrls(S, c);
    var mid := Middle(S, t2);
    MiddleKeeps(S, t2);
    RestoreFillsSlots(mid, u, urls);
    var slots := Slots(mid, u);
    var back := RestoreAll(mid, u, urls);
    SlotsTemplate(mid, u);
    FillKeepsOther(slots, u, urls, m);
    RestoreFillsSlots(back, m, mentions);
    var out := RestoreAll(back, m, mentions);
    SlotsCharFree(back, m, u[0]);
    FillCharFree(Slots(back, m), mentions, u[0]);
    ContainsChar(out, u);
  }

  /**
   * With the middle stages doing nothing, restoring URLs and then mentions
   * gives back the cleaned text exactly, whatever the captured values hold:
   * a mention placeholder swallowed by a URL is restored after the URL is.
   */
  lemma ProtectRestoreInverse(S: Settings, c: string)
    requires Placeholders(S)
    requires S.urlPlaceholder[0] !in c && S.mentionPlaceholder[0] !in c
    ensures RestoreAll(RestoreAll(Protected(S, c), S.urlPlaceholder, Urls(S, c)),
      S.mentionPlaceholder, Mentions(S, c)) == c
  {
    ProtectMentions(S, c);
    ProtectRestoreRoundTrip(S.url, S.urlPlaceholder, MentionsProtected(S, c));
    ProtectRestoreRoundTrip(S.mention, S.mentionPlaceholder, c);
  }

  // ---------------------------------------------------------------------------
  // `post_process_text` and `fix_for_tagger`
  // ---------------------------------------------------------------------------

  /** `post_process_text`: every mention becomes `slo_mention`, then every URL becomes `slo_url`. */
  function PostProcessText(S: Settings, s: string): string {
    Sub(S.url, Constant("slo_url"), Sub(S.mention, Constant("slo_mention"), s, 0), 0)
  }

  /**
   * Post-processing cuts the text into the same gaps and matches twice:
   * each mention is replaced by `slo_mention`, then each URL of the result by
   * `slo_url`, and every character outside a match stays where it was.
   */
  lemma PostProcessAbstracts(S: Settings, s: string)
    ensures var g, found := Gaps(S.mention, s, 0), FindAll(S.mention, s, 0);
      && |g| == |found| + 1
      && s == Fill(g, found)
      && var t := Sub(S.mention, Constant("slo_mention"), s, 0);
      && t == Fill(g, Repeat("slo_mention", |found|))
      && var g2, found2 := Gaps(S.url, t, 0), FindAll(S.url, t, 0);
      && |g2| == |found2| + 1
      && t == Fill(g2, found2)
      && PostProcessText(S, s) == Fill(g2, Repeat("slo_url", |found2|))
  {
    ScanDecomposes(S.mention, s, 0);
    SubConstant(S.mention, "slo_mention", s, 0);
    assert s[0..] == s;
    var t := Sub(S.mention, Constant("slo_mention"), s, 0);
    ScanDecomposes(S.url, t, 0);
    SubConstant(S.url, "slo_url", t, 0);
    assert t[0..] == t;
  }

  /** A text with no mention and no URL comes out of post-processing unchanged. */
  lemma PostProcessNoMatch(S: Settings, s: string)
    requires FindAll(S.mention, s, 0) == [] && FindAll(S.url, s, 0) == []
    ensures PostProcessText(S, s) == s
  {
    PostProcessAbstracts(S, s);
  }

  /** `fix_for_tagger`: empty texts become `slo_empty_text`, all others are kept. */
  function FixForTagger(texts: seq<string>): (r: seq<string>)
    ensures |r| == |texts|
    ensures forall i :: 0 <= i < |texts| && texts[i] != "" ==> r[i] == texts[i]
    ensures forall i :: 0 <= i < |texts| && texts[i] == "" ==> r[i] == "slo_empty_text"
  {
    seq(|texts|, i requires 0 <= i < |texts| => if texts[i] != "" then texts[i] else "slo_empty_text")
  }

  /** After the fix no text is empty, so fixing again changes nothing. */
  lemma FixForTaggerIdempotent(texts: seq<string>)
    ensures forall i :: 0 <= i < |texts| ==> FixForTagger(texts)[i] != ""
    ensures FixForTagger(FixForTagger(texts)) == FixForTagger(texts)
  {
  }
}
