/**
 * The rule-based auto-coding of `src/autocoding_processor.py`: per company,
 * the rows to code are selected (company filter, testset exclusion),
 * semicolons are stripped from the two text columns, each row is flagged by
 * the for/against/neutral rules, the three stance selections are formed, and
 * an equal number of rows is sampled from each and labelled.
 *
 * The rule patterns come from the settings module and are abstract matchers.
 * `DataFrame.sample` is a nondeterministic choice of distinct row positions.
 */
module AutocodingProcessor {
  import opened Wrappers
  import opened Text
  import opened Regex
  import CodingProcessor
  import opened Tiling
  import opened Frames

  /** A row of the normalised dataset; the two coding columns are `None` until they are assigned. */
  datatype Row = Row(
    id: int,
    company: string,
    userScreenName: string,
    retweeted: bool,
    tweetNorm: string,
    profileNorm: string,
    stance: Option<string>,
    confidence: Option<string>)

  /** The rule patterns of the settings module: the for and against patterns are per company. */
  datatype Rules = Rules(
    forPattern: string -> Matcher,
    againstPattern: string -> Matcher,
    neutralScreenNames: Matcher,
    companyList: seq<string>)

  // ---------------------------------------------------------------------------
  // Testset exclusion
  // ---------------------------------------------------------------------------

  /**
   * The compiled exclusion pattern: `'$^'` without a testset, otherwise the
   * `|`-alternation of the testset ids rendered as text.
   */
  datatype IdsPattern = EndThenStart | Alternation(alternatives: seq<string>)

  /** `get_testset_ids_pattern`, once the testset's ids are loaded. */
  function TestsetIdsPattern(testset: Option<seq<int>>): (p: IdsPattern)
    ensures testset.None? <==> p.EndThenStart?
    ensures testset.Some? ==>
      |p.alternatives| == |testset.value|
      && forall k :: 0 <= k < |testset.value| ==> p.alternatives[k] == CodingProcessor.IntToString(testset.value[k])
  {
    match testset
    case None => EndThenStart
    case Some(ids) => Alternation(seq(|ids|, k requires 0 <= k < |ids| => CodingProcessor.IntToString(ids[k])))
  }

  /**
   * `pattern.match(str(id))`: `'$^'` matches only the empty text; an
   * alternation matches when one alternative is a prefix of the text, and
   * the empty alternation is the empty pattern, which matches every text.
   */
  predicate MatchesId(p: IdsPattern, id: int) {
    var s := CodingProcessor.IntToString(id);
    match p
    case EndThenStart => s == ""
    case Alternation(alts) => alts == [] || exists k :: 0 <= k < |alts| && StartsWith(s, alts[k])
  }

  /** With no testset file, the exclusion pattern matches no id, so no row is excluded. */
  lemma NoTestsetExcludesNothing(id: int)
    ensures !MatchesId(TestsetIdsPattern(None), id)
  {
    CodingProcessor.IntToStringSign(id);
  }

  /** Every testset id is excluded. */
  lemma TestsetIdExcluded(ids: seq<int>, k: nat)
    requires k < |ids|
    ensures MatchesId(TestsetIdsPattern(Some(ids)), ids[k])
  {
    var p := TestsetIdsPattern(Some(ids));
    assert StartsWith(CodingProcessor.IntToString(ids[k]), p.alternatives[k]);
  }

  /** The match is anchored only at the start: an id whose text extends a testset id's text is excluded too. */
  lemma TestsetPrefixExcluded(ids: seq<int>, k: nat, id: int)
    requires k < |ids| && StartsWith(CodingProcessor.IntToString(id), CodingProcessor.IntToString(ids[k]))
    ensures MatchesId(TestsetIdsPattern(Some(ids)), id)
  {
    var p := TestsetIdsPattern(Some(ids));
    assert StartsWith(CodingProcessor.IntToString(id), p.alternatives[k]);
  }

  /** A testset file without rows joins to the empty pattern, which excludes every id. */
  lemma EmptyTestsetExcludesAll(id: int)
    ensures MatchesId(TestsetIdsPattern(Some([])), id)
  {
  }

  // ---------------------------------------------------------------------------
  // The rows of one company
  // ---------------------------------------------------------------------------

  /**
   * Lines 104-108 as written: the company filter, replaced, when a testset
   * is given, by a selection from all rows that only drops testset ids.
   */
  function CompanyRowsAsWritten(rows: seq<Row>, company: string, testset: Option<seq<int>>): (r: seq<Row>)
    ensures testset.None? ==> forall x :: x in r <==> x in rows && Contains(x.company, company)
    ensures testset.Some? ==> forall x :: x in r <==> x in rows && !MatchesId(TestsetIdsPattern(testset), x.id)
  {
    if testset.Some? then Where(rows, (x: Row) => !MatchesId(TestsetIdsPattern(testset), x.id))
    else Where(rows, (x: Row) => Contains(x.company, company))
  }

  /** The evidently intended selection: the company's rows, less the testset ids. */
  function CompanyRows(rows: seq<Row>, company: string, testset: Option<seq<int>>): (r: seq<Row>)
    ensures forall x :: x in r <==> x in rows && Contains(x.company, company) && !MatchesId(TestsetIdsPattern(testset), x.id)
  {
    var p := TestsetIdsPattern(testset);
    Where(rows, (x: Row) => Contains(x.company, company) && !MatchesId(p, x.id))
  }

  /** The rows lines 104-108 select for one company, as written or as intended. */
  function CompanyRowsRead(v: Reading, rows: seq<Row>, company: string, testset: Option<seq<int>>): seq<Row> {
    match v
    case AsWritten => CompanyRowsAsWritten(rows, company, testset)
    case Intended => CompanyRows(rows, company, testset)
  }

  /** Without a testset the two selections agree. */
  lemma CompanyRowsWithoutTestset(rows: seq<Row>, company: string)
    ensures forall x :: x in CompanyRows(rows, company, None) <==> x in CompanyRowsAsWritten(rows, company, None)
  {
    forall x | x in rows
      ensures !MatchesId(TestsetIdsPattern(None), x.id)
    {
      NoTestsetExcludesNothing(x.id);
    }
  }

  /**
   * As written, a testset drops the company filter: a row of another
   * company is coded for `adani` as soon as any testset is given.
   */
  lemma TestsetDropsCompanyFilter()
    ensures var row := Row(7, "bhp", "someone", false, "text", "", None, None);
      row in CompanyRowsAsWritten([row], "adani", Some([5]))
      && row !in CompanyRows([row], "adani", Some([5]))
  {
    var row := Row(7, "bhp", "someone", false, "text", "", None, None);
    ContainsChar("bhp", "adani");
    assert CodingProcessor.IntToString(7) == "7";
    assert "7"[0] != "5"[0];
    assert TestsetIdsPattern(Some([5])).alternatives == ["5"];
    assert !MatchesId(TestsetIdsPattern(Some([5])), 7);
  }

  // ---------------------------------------------------------------------------
  // Semicolons
  // ---------------------------------------------------------------------------

  /** `str.replace(";", "")` on `tweet_norm` and `profile_norm`. */
  function StripSemicolons(r: Row): (s: Row)
    ensures ';' !in s.tweetNorm && ';' !in s.profileNorm
    ensures forall c :: c != ';' ==>
      multiset(s.tweetNorm)[c] == multiset(r.tweetNorm)[c] && multiset(s.profileNorm)[c] == multiset(r.profileNorm)[c]
    ensures s.(tweetNorm := r.tweetNorm, profileNorm := r.profileNorm) == r
  {
    RemoveCharCounts(r.tweetNorm, ';');
    RemoveCharCounts(r.profileNorm, ';');
    r.(tweetNorm := RemoveChar(r.tweetNorm, ';'), profileNorm := RemoveChar(r.profileNorm, ';'))
  }

  /** Removing a character that does not occur changes nothing. */
  lemma {:induction false} RemoveAbsentChar(s: string, c: char)
    requires c !in s
    ensures RemoveChar(s, c) == s
  {
    if s != [] {
      assert s == [s[0]] + s[1..];
      RemoveAbsentChar(s[1..], c);
    }
  }

  /** A row without semicolons is left as it is, so stripping twice is stripping once. */
  lemma StripSemicolonsIdempotent(r: Row)
    ensures StripSemicolons(StripSemicolons(r)) == StripSemicolons(r)
  {
    var s := StripSemicolons(r);
    RemoveAbsentChar(s.tweetNorm, ';');
    RemoveAbsentChar(s.profileNorm, ';');
  }

  /** The column assignments of lines 112-113, row by row. */
  function StripAll(rows: seq<Row>): (r: seq<Row>)
    ensures |r| == |rows| && forall k :: 0 <= k < |rows| ==> r[k] == StripSemicolons(rows[k])
  {
    seq(|rows|, k requires 0 <= k < |rows| => StripSemicolons(rows[k]))
  }

  // ---------------------------------------------------------------------------
  // The stance partition
  // ---------------------------------------------------------------------------

  datatype Stance = For | Against | Neutral

  /** The stance code written to the `stance` column. */
  function Code(st: Stance): string {
    match st
    case For => "for"
    case Against => "against"
    case Neutral => "neutral"
  }

  /** The three rule flags of a row: for and against search the tweet text, neutral matches the author's screen name at its start. */
  datatype AutoFlags = AutoFlags(autoFor: bool, autoAgainst: bool, autoNeutral: bool)

  function Flags(R: Rules, company: string, r: Row): AutoFlags {
    AutoFlags(
      Search(R.forPattern(company), r.tweetNorm).Some?,
      Search(R.againstPattern(company), r.tweetNorm).Some?,
      MatchLength(R.neutralScreenNames, r.userScreenName, 0) > 0)
  }

  /** A row is selected for a stance when exactly that stance's rule fires and it is not a retweet. */
  predicate Selected(R: Rules, company: string, r: Row, st: Stance) {
    var f := Flags(R, company, r);
    !r.retweeted
    && f.autoFor == (st == For)
    && f.autoAgainst == (st == Against)
    && f.autoNeutral == (st == Neutral)
  }

  /** `df_for`, `df_against` and `df_neutral`. */
  function Selection(R: Rules, company: string, rows: seq<Row>, st: Stance): (sel: seq<Row>)
    ensures forall x :: x in sel <==> x in rows && Selected(R, company, x, st)
  {
    Where(rows, (x: Row) => Selected(R, company, x, st))
  }

  /** The three selections are pairwise disjoint and hold no retweet. */
  lemma SelectionsPartition(R: Rules, company: string, rows: seq<Row>, x: Row, s1: Stance, s2: Stance)
    requires x in Selection(R, company, rows, s1) && x in Selection(R, company, rows, s2)
    ensures s1 == s2 && !x.retweeted
  {
  }

  /** `min_sample_size`: the size of the smallest selection. */
  function MinSampleSize(a: nat, b: nat, c: nat): (n: nat)
    ensures n <= a && n <= b && n <= c
    ensures n == a || n == b || n == c
  {
    if a <= b && a <= c then a else if b <= c then b else c
  }

  // ---------------------------------------------------------------------------
  // Sampling and labelling
  // ---------------------------------------------------------------------------

  /** The three column assignments of `create_tweet_sample` on one row. */
  function Label(r: Row, code: string, company: string): Row {
    r.(stance := Some(code), confidence := Some("auto"), company := company)
  }

  /** Every row labelled with the code, `auto` confidence and the company; nothing else in a row changes. */
  function Labelled(rows: seq<Row>, code: string, company: string): (ls: seq<Row>)
    ensures |ls| == |rows|
    ensures forall k :: 0 <= k < |rows| ==>
      ls[k].stance == Some(code) && ls[k].confidence == Some("auto") && ls[k].company == company
      && ls[k].(stance := rows[k].stance, confidence := rows[k].confidence, company := rows[k].company) == rows[k]
  {
    seq(|rows|, k requires 0 <= k < |rows| => Label(rows[k], code, company))
  }

  /** Labelling twice leaves the second label. */
  lemma LabelledTwice(rows: seq<Row>, c1: string, c2: string, company: string)
    ensures Labelled(Labelled(rows, c1, company), c2, company) == Labelled(rows, c2, company)
  {
  }

  /** `n` distinct positions of a frame of `size` rows. */
  predicate ValidPicks(picks: seq<nat>, n: nat, size: nat) {
    |picks| == n
    && (forall k :: 0 <= k < n ==> picks[k] < size)
    && forall j, k :: 0 <= j < k < n ==> picks[j] != picks[k]
  }

  /** The first `n` positions. */
  function FirstPositions(n: nat): (p: seq<nat>)
    ensures |p| == n && forall k :: 0 <= k < n ==> p[k] == k
  {
    if n == 0 then [] else FirstPositions(n - 1) + [n - 1]
  }

  /** The rows at the picked positions, in the order picked. */
  function Pick(rows: seq<Row>, picks: seq<nat>): (r: seq<Row>)
    requires forall k :: 0 <= k < |picks| ==> picks[k] < |rows|
    ensures |r| == |picks| && forall k :: 0 <= k < |picks| ==> r[k] == rows[picks[k]]
  {
    seq(|picks|, k requires 0 <= k < |picks| => rows[picks[k]])
  }

  /** The rows sampled from `rows` are distinct rows of it. */
  lemma PickedFrom(rows: seq<Row>, picks: seq<nat>, n: nat)
    requires ValidPicks(picks, n, |rows|)
    ensures forall x :: x in Pick(rows, picks) ==> x in rows
  {
  }

  /**
   * What `create_tweet_sample` returns for `sampleSize`: `sampleSize`
   * distinct rows of the frame when it is positive, otherwise every row,
   * each labelled.
   */
  ghost predicate SampleOf(out: seq<Row>, rows: seq<Row>, sampleSize: int, code: string, company: string) {
    if sampleSize > 0 then
      exists picks :: ValidPicks(picks, sampleSize, |rows|) && out == Labelled(Pick(rows, picks), code, company)
    else
      out == Labelled(rows, code, company)
  }

  /** A data frame whose columns are assigned in place. */
  class Frame {
    var rows: seq<Row>

    constructor(rows: seq<Row>)
      ensures this.rows == rows
    {
      this.rows := rows;
    }

    /** `df['stance'] = code`, `df['confidence'] = 'auto'`, `df['company'] = company`. */
    method AssignCodingColumns(code: string, company: string)
      modifies this
      ensures rows == Labelled(old(rows), code, company)
    {
      rows := Labelled(rows, code, company);
    }
  }

  /**
   * `create_tweet_sample`: with a positive size, a new frame of that many
   * distinct rows (more than the frame holds raises `ValueError`);
   * otherwise the given frame itself. The three columns are then assigned
   * on the frame returned, so with a size of zero the caller's frame is
   * relabelled.
   */
  method CreateTweetSample(df: Frame, sampleSize: int, code: string, company: string) returns (r: Result<Frame>)
    modifies df
    ensures r.Err? <==> sampleSize > |old(df.rows)|
    ensures r.Err? ==> r.error.ValueError? && df.rows == old(df.rows)
    ensures r.Ok? ==> SampleOf(r.value.rows, old(df.rows), sampleSize, code, company)
    ensures r.Ok? && sampleSize <= 0 ==> r.value == df
    ensures r.Ok? && sampleSize > 0 ==> fresh(r.value) && df.rows == old(df.rows)
  {
    var out := df;
    if sampleSize > 0 {
      if sampleSize > |df.rows| {
        return Err(ValueError("Cannot take a larger sample than population when 'replace=False'"));
      }
      var n: nat := sampleSize;
      assert ValidPicks(FirstPositions(n), n, |df.rows|);
      assert exists p: seq<nat> :: ValidPicks(p, n, |df.rows|);
      var picks :| ValidPicks(picks, n, |df.rows|);
      out := new Frame(Pick(df.rows, picks));
    }
    out.AssignCodingColumns(code, company);
    return Ok(out);
  }

  // ---------------------------------------------------------------------------
  // One company
  // ---------------------------------------------------------------------------

  /** The selections of one company, after the row selection and the semicolon stripping. */
  function Selections(R: Rules, v: Reading, rows: seq<Row>, company: string, testset: Option<seq<int>>): (seq<Row>, seq<Row>, seq<Row>)
  {
    var companies := StripAll(CompanyRowsRead(v, rows, company, testset));
    (Selection(R, company, companies, For), Selection(R, company, companies, Against), Selection(R, company, companies, Neutral))
  }

  /**
   * What one company adds as written: when the smallest selection is
   * positive, three groups of that size, all labelled rows of the for
   * selection, coded for, against and neutral; when it is empty, the whole
   * for selection three times, coded neutral.
   */
  ghost predicate AsWrittenOutcome(added: seq<Row>, f: seq<Row>, size: nat, company: string) {
    if size > 0 then
      |added| == 3 * size
      && (forall k :: 0 <= k < size ==> added[k] in Labelled(f, "for", company))
      && (forall k :: size <= k < 2 * size ==> added[k] in Labelled(f, "against", company))
      && (forall k :: 2 * size <= k < 3 * size ==> added[k] in Labelled(f, "neutral", company))
    else
      var l := Labelled(f, "neutral", company);
      added == l + l + l
  }

  /**
   * Lines 155-157 as written: all three samples are drawn from the for
   * selection (the against and neutral samples from the sample just taken),
   * and with a sample size of zero the three results are one and the same
   * frame, relabelled by each call in turn.
   */
  method AutocodeCompanyAsWritten(R: Rules, rows: seq<Row>, company: string, testset: Option<seq<int>>)
    returns (added: seq<Row>)
    ensures var s := Selections(R, AsWritten, rows, company, testset);
      AsWrittenOutcome(added, s.0, MinSampleSize(|s.0|, |s.1|, |s.2|), company)
  {
    var (f, a, n) := Selections(R, AsWritten, rows, company, testset);
    var size := MinSampleSize(|f|, |a|, |n|);
    var dfFor := new Frame(f);
    var forSample := CreateTweetSample(dfFor, size, "for", company);
    var againstSample := CreateTweetSample(forSample.value, size, "against", company);
    var neutralSample := CreateTweetSample(forSample.value, size, "neutral", company);
    added := forSample.value.rows + againstSample.value.rows + neutralSample.value.rows;
    if size > 0 {
      ThreeSamplesAsWritten(f, forSample.value.rows, againstSample.value.rows, neutralSample.value.rows, size, company);
    } else {
      LabelledTwice(f, "for", "against", company);
      LabelledTwice(f, "against", "neutral", company);
    }
  }

  lemma ThreeSamplesAsWritten(f: seq<Row>, s1: seq<Row>, s2: seq<Row>, s3: seq<Row>, size: nat, company: string)
    requires size > 0
    requires SampleOf(s1, f, size, "for", company)
    requires SampleOf(s2, s1, size, "against", company)
    requires SampleOf(s3, s1, size, "neutral", company)
    ensures AsWrittenOutcome(s1 + s2 + s3, f, size, company)
  {
    SampledLabels(f, s1, size, "for", company);
    SampledTwice(f, s1, s2, size, "for", "against", company);
    SampledTwice(f, s1, s3, size, "for", "neutral", company);
    var added := s1 + s2 + s3;
    assert added[..size] == s1 && added[size..2 * size] == s2 && added[2 * size..] == s3;
    PartIn(added, 0, s1, Labelled(f, "for", company));
    PartIn(added, size, s2, Labelled(f, "against", company));
    PartIn(added, 2 * size, s3, Labelled(f, "neutral", company));
  }

  /** A stretch of a sequence whose rows all belong to `l`. */
  lemma PartIn(xs: seq<Row>, lo: nat, part: seq<Row>, l: seq<Row>)
    requires lo + |part| <= |xs| && xs[lo..lo + |part|] == part
    requires forall x :: x in part ==> x in l
    ensures forall k :: lo <= k < lo + |part| ==> xs[k] in l
  {
    forall k | lo <= k < lo + |part| ensures xs[k] in l {
      assert xs[k] == part[k - lo];
    }
  }

  /** Each row of a positive-size sample is a labelled row of the frame sampled. */
  lemma SampledLabels(rows: seq<Row>, out: seq<Row>, size: int, code: string, company: string)
    requires size > 0 && SampleOf(out, rows, size, code, company)
    ensures |out| == size && forall x :: x in out ==> x in Labelled(rows, code, company)
  {
    var picks :| ValidPicks(picks, size, |rows|) && out == Labelled(Pick(rows, picks), code, company);
    var l := Labelled(rows, code, company);
    forall x | x in out
      ensures x in l
    {
      var k :| 0 <= k < |out| && out[k] == x;
      assert x == l[picks[k]];
    }
  }

  /** Relabelling a labelled row gives the row with the second label. */
  lemma RelabelMember(y: Row, rows: seq<Row>, c1: string, c2: string, company: string)
    requires y in Labelled(rows, c1, company)
    ensures Label(y, c2, company) in Labelled(rows, c2, company)
  {
    var j :| 0 <= j < |rows| && Labelled(rows, c1, company)[j] == y;
    assert Label(y, c2, company) == Labelled(rows, c2, company)[j];
  }

  /** Sampling a labelled sample again and relabelling it yields rows of the first frame with the second label. */
  lemma SampledTwice(rows: seq<Row>, first: seq<Row>, second: seq<Row>, size: int, c1: string, c2: string, company: string)
    requires size > 0 && SampleOf(first, rows, size, c1, company) && SampleOf(second, first, size, c2, company)
    ensures |second| == size && forall x :: x in second ==> x in Labelled(rows, c2, company)
  {
    SampledLabels(rows, first, size, c1, company);
    SampledLabels(first, second, size, c2, company);
    forall x | x in second
      ensures x in Labelled(rows, c2, company)
    {
      var k :| 0 <= k < |first| && Labelled(first, c2, company)[k] == x;
      RelabelMember(first[k], rows, c1, c2, company);
    }
  }

  /**
   * The discrepancy: every row the as-written step codes `against` is a
   * tweet whose for rule fired and whose against rule did not.
   */
  lemma AgainstCodedFromForTweets(R: Rules, rows: seq<Row>, company: string, testset: Option<seq<int>>, x: Row)
    requires x in Labelled(Selections(R, AsWritten, rows, company, testset).0, "against", company)
    ensures x.stance == Some("against")
    ensures Flags(R, company, x).autoFor && !Flags(R, company, x).autoAgainst
  {
    var f := Selections(R, AsWritten, rows, company, testset).0;
    var k :| 0 <= k < |f| && Labelled(f, "against", company)[k] == x;
    assert f[k] in f;
  }

  /**
   * What one company adds as intended: per stance, a sample of the smallest
   * selection's size drawn from that stance's own selection, or, when that
   * size is zero, each whole selection, each labelled with its stance.
   */
  ghost predicate Outcome(added: seq<Row>, f: seq<Row>, a: seq<Row>, n: seq<Row>, size: nat, company: string) {
    if size > 0 then
      |added| == 3 * size
      && SampleOf(added[..size], f, size, "for", company)
      && SampleOf(added[size..2 * size], a, size, "against", company)
      && SampleOf(added[2 * size..], n, size, "neutral", company)
    else
      added == Labelled(f, "for", company) + Labelled(a, "against", company) + Labelled(n, "neutral", company)
  }

  /** `Outcome` for the selections of one company. */
  ghost predicate CompanyOutcome(R: Rules, rows: seq<Row>, company: string, testset: Option<seq<int>>, added: seq<Row>) {
    var s := Selections(R, Intended, rows, company, testset);
    Outcome(added, s.0, s.1, s.2, MinSampleSize(|s.0|, |s.1|, |s.2|), company)
  }

  /**
   * The evidently intended step: each stance's sample is drawn from its own
   * selection, so each company adds equally many rows per stance.
   */
  method AutocodeCompany(R: Rules, rows: seq<Row>, company: string, testset: Option<seq<int>>)
    returns (added: seq<Row>)
    ensures CompanyOutcome(R, rows, company, testset, added)
  {
    var (f, a, n) := Selections(R, Intended, rows, company, testset);
    var size := MinSampleSize(|f|, |a|, |n|);
    var dfFor := new Frame(f);
    var dfAgainst := new Frame(a);
    var dfNeutral := new Frame(n);
    var forSample := CreateTweetSample(dfFor, size, "for", company);
    var againstSample := CreateTweetSample(dfAgainst, size, "against", company);
    var neutralSample := CreateTweetSample(dfNeutral, size, "neutral", company);
    added := forSample.value.rows + againstSample.value.rows + neutralSample.value.rows;
    if size > 0 {
      ThreeSamples(f, a, n, forSample.value.rows, againstSample.value.rows, neutralSample.value.rows, size, company);
    }
  }

  lemma ThreeSamples(f: seq<Row>, a: seq<Row>, n: seq<Row>, s1: seq<Row>, s2: seq<Row>, s3: seq<Row>, size: nat, company: string)
    requires size > 0
    requires SampleOf(s1, f, size, "for", company)
    requires SampleOf(s2, a, size, "against", company)
    requires SampleOf(s3, n, size, "neutral", company)
    ensures Outcome(s1 + s2 + s3, f, a, n, size, company)
  {
    SampledLabels(f, s1, size, "for", company);
    SampledLabels(a, s2, size, "against", company);
    SampledLabels(n, s3, size, "neutral", company);
    var added := s1 + s2 + s3;
    assert added[..size] == s1;
    assert added[size..2 * size] == s2;
    assert added[2 * size..] == s3;
  }

  /** In the intended step, every row coded with a stance was selected by that stance's rule alone. */
  lemma CodedByOwnRule(R: Rules, rows: seq<Row>, company: string, testset: Option<seq<int>>, st: Stance, x: Row)
    requires var s := Selections(R, Intended, rows, company, testset);
      x in Labelled(if st == For then s.0 else if st == Against then s.1 else s.2, Code(st), company)
    ensures x.stance == Some(Code(st)) && !x.retweeted
    ensures Flags(R, company, x).autoFor == (st == For)
    ensures Flags(R, company, x).autoAgainst == (st == Against)
    ensures Flags(R, company, x).autoNeutral == (st == Neutral)
  {
    var s := Selections(R, Intended, rows, company, testset);
    var sel := if st == For then s.0 else if st == Against then s.1 else s.2;
    var k :| 0 <= k < |sel| && Labelled(sel, Code(st), company)[k] == x;
    assert sel[k] in sel;
  }

  // ---------------------------------------------------------------------------
  // All companies
  // ---------------------------------------------------------------------------

  /**
   * How many rows one company's step adds: three samples of the smallest
   * selection's size or, when that is zero, the for selection three times
   * as written and each whole selection once as intended.
   */
  function Quota(R: Rules, v: Reading, rows: seq<Row>, company: string, testset: Option<seq<int>>): nat {
    var s := Selections(R, v, rows, company, testset);
    var size := MinSampleSize(|s.0|, |s.1|, |s.2|);
    if size > 0 then 3 * size
    else if v == AsWritten then 3 * |s.0|
    else |s.0| + |s.1| + |s.2|
  }

  /** Each company's quota. */
  function Quotas(R: Rules, v: Reading, rows: seq<Row>, testset: Option<seq<int>>): string -> nat {
    company => Quota(R, v, rows, company, testset)
  }

  /** How many rows the companies add together. */
  function TotalQuota(R: Rules, v: Reading, rows: seq<Row>, companies: seq<string>, testset: Option<seq<int>>): nat {
    Total(Quotas(R, v, rows, testset), companies)
  }

  lemma TotalQuotaStep(R: Rules, v: Reading, rows: seq<Row>, companies: seq<string>, i: nat, testset: Option<seq<int>>)
    requires i < |companies|
    ensures TotalQuota(R, v, rows, companies[..i + 1], testset) == TotalQuota(R, v, rows, companies[..i], testset) + Quota(R, v, rows, companies[i], testset)
  {
    TotalStep(Quotas(R, v, rows, testset), companies, i);
  }

  /** The row is auto-coded for the company with one of the three stance codes. */
  predicate Coded(x: Row, company: string) {
    x.confidence == Some("auto") && x.company == company
    && (x.stance == Some("for") || x.stance == Some("against") || x.stance == Some("neutral"))
  }

  /** Every row is auto-coded for the company. */
  predicate AllCoded(rows: seq<Row>, company: string) {
    forall k :: 0 <= k < |rows| ==> Coded(rows[k], company)
  }

  lemma CodedSample(out: seq<Row>, rows: seq<Row>, size: int, code: string, company: string)
    requires size > 0 && SampleOf(out, rows, size, code, company)
    requires code == "for" || code == "against" || code == "neutral"
    ensures |out| == size && AllCoded(out, company)
  {
    var picks :| ValidPicks(picks, size, |rows|) && out == Labelled(Pick(rows, picks), code, company);
  }

  lemma AllCodedConcat(a: seq<Row>, b: seq<Row>, company: string)
    requires AllCoded(a, company) && AllCoded(b, company)
    ensures AllCoded(a + b, company)
  {
    forall k | 0 <= k < |a + b|
      ensures Coded((a + b)[k], company)
    {
      if k < |a| {
        assert (a + b)[k] == a[k];
      } else {
        assert (a + b)[k] == b[k - |a|];
      }
    }
  }

  lemma ThreeParts(added: seq<Row>, size: nat)
    requires |added| == 3 * size
    ensures added == added[..size] + added[size..2 * size] + added[2 * size..]
  {
  }

  /** The rows of an outcome are auto-coded for the company, and there are as many as the quota says. */
  lemma OutcomeCoded(added: seq<Row>, f: seq<Row>, a: seq<Row>, n: seq<Row>, size: nat, company: string)
    requires Outcome(added, f, a, n, size, company)
    ensures |added| == if size > 0 then 3 * size else |f| + |a| + |n|
    ensures AllCoded(added, company)
  {
    if size > 0 {
      var s1, s2, s3 := added[..size], added[size..2 * size], added[2 * size..];
      CodedSample(s1, f, size, "for", company);
      CodedSample(s2, a, size, "against", company);
      CodedSample(s3, n, size, "neutral", company);
      AllCodedConcat(s1, s2, company);
      AllCodedConcat(s1 + s2, s3, company);
      ThreeParts(added, size);
    } else {
      var l1, l2, l3 := Labelled(f, "for", company), Labelled(a, "against", company), Labelled(n, "neutral", company);
      AllCodedConcat(l1, l2, company);
      AllCodedConcat(l1 + l2, l3, company);
    }
  }

  /** The rows one company's step adds: as many as its quota, each coded `auto` for that company with one of the three stances. */
  lemma AutocodedRows(R: Rules, rows: seq<Row>, company: string, testset: Option<seq<int>>, added: seq<Row>)
    requires CompanyOutcome(R, rows, company, testset, added)
    ensures |added| == Quota(R, Intended, rows, company, testset)
    ensures AllCoded(added, company)
  {
    var s := Selections(R, Intended, rows, company, testset);
    OutcomeCoded(added, s.0, s.1, s.2, MinSampleSize(|s.0|, |s.1|, |s.2|), company);
  }

  /** A row labelled with one of the three stance codes is auto-coded for the company. */
  lemma {:induction false} LabelledCoded(rows: seq<Row>, code: string, company: string, x: Row)
    requires code == "for" || code == "against" || code == "neutral"
    requires x in Labelled(rows, code, company)
    ensures Coded(x, company)
  {
    var k :| 0 <= k < |rows| && Labelled(rows, code, company)[k] == x;
  }

  /** The rows of an as-written outcome are auto-coded for the company, three samples' or three whole selections' worth. */
  lemma AsWrittenOutcomeCoded(added: seq<Row>, f: seq<Row>, size: nat, company: string)
    requires AsWrittenOutcome(added, f, size, company)
    ensures |added| == if size > 0 then 3 * size else 3 * |f|
    ensures AllCoded(added, company)
  {
    forall k | 0 <= k < |added|
      ensures Coded(added[k], company)
    {
      if size > 0 {
        var code := if k < size then "for" else if k < 2 * size then "against" else "neutral";
        LabelledCoded(f, code, company, added[k]);
      } else {
        var l := Labelled(f, "neutral", company);
        var j := if k < |l| then k else if k < 2 * |l| then k - |l| else k - 2 * |l|;
        assert added[k] == l[j];
        LabelledCoded(f, "neutral", company, added[k]);
      }
    }
  }

  /**
   * The rows one company's step adds as written: as many as its quota, each
   * coded `auto` for that company with one of the three stances (a row of
   * another company selected through the testset branch is relabelled with
   * this company too).
   */
  lemma AsWrittenRows(R: Rules, rows: seq<Row>, company: string, testset: Option<seq<int>>, added: seq<Row>)
    requires var s := Selections(R, AsWritten, rows, company, testset);
      AsWrittenOutcome(added, s.0, MinSampleSize(|s.0|, |s.1|, |s.2|), company)
    ensures |added| == Quota(R, AsWritten, rows, company, testset)
    ensures AllCoded(added, company)
  {
    var s := Selections(R, AsWritten, rows, company, testset);
    AsWrittenOutcomeCoded(added, s.0, MinSampleSize(|s.0|, |s.1|, |s.2|), company);
  }

  /** One company's step under a reading: the as-written or the intended outcome of its selections. */
  ghost predicate StepOutcome(R: Rules, v: Reading, rows: seq<Row>, company: string, testset: Option<seq<int>>, added: seq<Row>) {
    match v
    case AsWritten =>
      var s := Selections(R, AsWritten, rows, company, testset);
      AsWrittenOutcome(added, s.0, MinSampleSize(|s.0|, |s.1|, |s.2|), company)
    case Intended => CompanyOutcome(R, rows, company, testset, added)
  }

  /** Each company's step outcome under a reading. */
  ghost function Outcomes(R: Rules, v: Reading, rows: seq<Row>, testset: Option<seq<int>>): (string, seq<Row>) -> bool {
    (company: string, added: seq<Row>) => StepOutcome(R, v, rows, company, testset, added)
  }

  /** Applying `Outcomes` to a company and its stretch is that company's step outcome. */
  lemma OutcomesApply(R: Rules, v: Reading, rows: seq<Row>, testset: Option<seq<int>>, company: string, added: seq<Row>)
    requires Outcomes(R, v, rows, testset)(company, added)
    ensures StepOutcome(R, v, rows, company, testset, added)
  {
  }

  /**
   * The combined frame company by company, in list order: each company's
   * stretch, as long as its quota, is the outcome of that company's step.
   */
  ghost predicate Stretches(R: Rules, v: Reading, rows: seq<Row>, testset: Option<seq<int>>, companies: seq<string>, combined: seq<Row>) {
    Tiled(Outcomes(R, v, rows, testset), Quotas(R, v, rows, testset), companies, combined)
  }

  /**
   * Where a company's rows sit: company `i` owns the stretch between the
   * quotas of the companies before it and those up to it, and that stretch
   * is its own step's outcome.
   */
  lemma StretchOfCompany(R: Rules, v: Reading, rows: seq<Row>, testset: Option<seq<int>>, companies: seq<string>,
                         combined: seq<Row>, i: nat)
    requires Stretches(R, v, rows, testset, companies, combined) && i < |companies|
    ensures TotalQuota(R, v, rows, companies[..i], testset) + Quota(R, v, rows, companies[i], testset) <= |combined|
    ensures Outcomes(R, v, rows, testset)(companies[i],
      combined[TotalQuota(R, v, rows, companies[..i], testset)..TotalQuota(R, v, rows, companies[..i], testset) + Quota(R, v, rows, companies[i], testset)])
  {
    TileAt(Outcomes(R, v, rows, testset), Quotas(R, v, rows, testset), companies, combined, i);
  }

  /** Every row is auto-coded for one of the companies of the list. */
  predicate CodedForListed(rows: seq<Row>, companies: seq<string>) {
    forall k :: 0 <= k < |rows| ==> rows[k].company in companies && Coded(rows[k], rows[k].company)
  }

  /** A company's step outcome, as long as its quota and auto-coded for it, extends the combined frame. */
  lemma CombinedStep(R: Rules, v: Reading, rows: seq<Row>, testset: Option<seq<int>>, i: nat, combined: seq<Row>, added: seq<Row>)
    requires i < |R.companyList| && CombinedSoFar(R, v, rows, testset, i, combined)
    requires StepOutcome(R, v, rows, R.companyList[i], testset, added)
    requires |added| == Quota(R, v, rows, R.companyList[i], testset) && AllCoded(added, R.companyList[i])
    ensures CombinedSoFar(R, v, rows, testset, i + 1, combined + added)
  {
    TotalQuotaStep(R, v, rows, R.companyList, i, testset);
    CodedForListedConcat(combined, added, R.companyList[i], R.companyList);
    TiledStep(Outcomes(R, v, rows, testset), Quotas(R, v, rows, testset), R.companyList, i, combined, added);
  }

  /** The combined frame after the first `i` companies: its size, its coding, and its stretches. */
  ghost predicate CombinedSoFar(R: Rules, v: Reading, rows: seq<Row>, testset: Option<seq<int>>, i: nat, combined: seq<Row>) {
    i <= |R.companyList|
    && |combined| == TotalQuota(R, v, rows, R.companyList[..i], testset)
    && CodedForListed(combined, R.companyList)
    && Stretches(R, v, rows, testset, R.companyList[..i], combined)
  }

  lemma CodedForListedConcat(before: seq<Row>, added: seq<Row>, company: string, companies: seq<string>)
    requires CodedForListed(before, companies) && AllCoded(added, company) && company in companies
    ensures CodedForListed(before + added, companies)
  {
    var c := before + added;
    forall k | 0 <= k < |c|
      ensures c[k].company in companies && Coded(c[k], c[k].company)
    {
      if k < |before| {
        assert c[k] == before[k];
      } else {
        assert c[k] == added[k - |before|];
      }
    }
  }

  /**
   * The company loop of `main`: each company's coded rows are appended to
   * the combined frame in the order of the company list. `AsWritten` runs
   * the step of lines 104-157 as it is written (testset branch over all
   * rows, every sample drawn from the for selection); `Intended` runs it
   * with both corrections.
   */
  method Autocode(R: Rules, v: Reading, rows: seq<Row>, testset: Option<seq<int>>) returns (combined: seq<Row>)
    ensures |combined| == TotalQuota(R, v, rows, R.companyList, testset)
    ensures CodedForListed(combined, R.companyList)
    ensures Stretches(R, v, rows, testset, R.companyList, combined)
  {
    combined := [];
    for i := 0 to |R.companyList|
      invariant CombinedSoFar(R, v, rows, testset, i, combined)
    {
      var company := R.companyList[i];
      var added;
      if v == AsWritten {
        added := AutocodeCompanyAsWritten(R, rows, company, testset);
        AsWrittenRows(R, rows, company, testset, added);
      } else {
        added := AutocodeCompany(R, rows, company, testset);
        AutocodedRows(R, rows, company, testset, added);
      }
      CombinedStep(R, v, rows, testset, i, combined, added);
      combined := combined + added;
    }
    assert R.companyList[..|R.companyList|] == R.companyList;
  }
}
