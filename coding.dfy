/**
 * The deterministic parts of `src/coding_processor.py`: stripping leading
 * mentions, building a tweet's URL, drawing a per-company sample of distinct,
 * accessible, eligible tweets, and assembling the manual coding set.
 *
 * The random draws of `DataFrame.sample(1)` are a sequence of indices given
 * as a parameter, and the HTTP accessibility check is a predicate parameter.
 */
module CodingProcessor {
  import opened Wrappers
  import opened Text
  import opened Regex
  import opened Tiling

  // ---------------------------------------------------------------------------
  // Leading mentions
  // ---------------------------------------------------------------------------

  /** Where the run of back-to-back mention matches that starts at `i` ends. */
  function MentionRunEnd(m: Matcher, s: string, i: nat): (e: nat)
    requires i <= |s|
    decreases |s| - i
    ensures i <= e <= |s|
    ensures MatchLength(m, s, e) == 0
  {
    var n := MatchLength(m, s, i);
    if n == 0 then i else MentionRunEnd(m, s, i + n)
  }

  /**
   * `remove_prepended_mentions`: `PTN_mention.match(tweet, start)` is tried
   * at the cut point and the cut advances past each match, until none
   * matches there; the rest of the tweet is returned.
   */
  method RemovePrependedMentions(m: Matcher, tweet: string) returns (r: string)
    ensures r == tweet[MentionRunEnd(m, tweet, 0)..]
    ensures EndsWith(tweet, r)
    ensures MatchLength(m, tweet, 0) == 0 ==> r == tweet
  {
    var start := 0;
    while true
      invariant start <= |tweet|
      invariant MentionRunEnd(m, tweet, start) == MentionRunEnd(m, tweet, 0)
      decreases |tweet| - start
    {
      var n := MatchLength(m, tweet, start);
      if n == 0 {
        break;
      }
      start := start + n;
    }
    r := tweet[start..];
    assert tweet[|tweet| - |r|..] == r;
  }

  /** A pattern that only looks at the text from where it is tried (no look-behind). */
  ghost predicate Local(m: Matcher) {
    forall s: string, i: nat {:trigger m(s, i), s[i..]} :: i <= |s| ==> m(s, i) == m(s[i..], 0)
  }

  lemma {:induction false} MentionRunShift(m: Matcher, s: string, k: nat, i: nat)
    requires Local(m) && k <= i <= |s|
    ensures MentionRunEnd(m, s[k..], i - k) == MentionRunEnd(m, s, i) - k
    decreases |s| - i
  {
    var t := s[k..];
    assert t[i - k..] == s[i..];
    assert m(t, i - k) == m(t[i - k..], 0) == m(s, i);
    var n := MatchLength(m, s, i);
    if n > 0 {
      MentionRunShift(m, s, k, i + n);
    }
  }

  /**
   * Removing leading mentions twice removes nothing more, for a pattern
   * without look-behind: the loop stops only where no mention matches.
   */
  lemma RemovePrependedMentionsIdempotent(m: Matcher, tweet: string)
    requires Local(m)
    ensures var e := MentionRunEnd(m, tweet, 0);
      MentionRunEnd(m, tweet[e..], 0) == 0
  {
    var e := MentionRunEnd(m, tweet, 0);
    MentionRunShift(m, tweet, e, e);
  }

  // ---------------------------------------------------------------------------
  // Tweet URLs
  // ---------------------------------------------------------------------------

  /** `str(n)` for any integer. */
  function IntToString(n: int): string {
    if n < 0 then "-" + NatToString(-n) else NatToString(n)
  }

  const StatusUrlPrefix := "https://twitter.com/-/status/"

  /** `create_tweet_url` */
  function CreateTweetUrl(id: int): (url: string)
    ensures StartsWith(url, StatusUrlPrefix)
    ensures url[|StatusUrlPrefix|..] == IntToString(id)
  {
    StatusUrlPrefix + IntToString(id)
  }

  /** The rendering starts with a minus sign exactly for a negative number. */
  lemma IntToStringSign(n: int)
    ensures |IntToString(n)| >= 1
    ensures IntToString(n)[0] == '-' <==> n < 0
  {
    if n >= 0 {
      NatToStringShape(n);
    }
  }

  /** Different integers have different renderings. */
  lemma IntToStringInjective(a: int, b: int)
    requires IntToString(a) == IntToString(b)
    ensures a == b
  {
    IntToStringSign(a);
    IntToStringSign(b);
    if a >= 0 {
      assert b >= 0;
      NatToStringInjective(a, b);
    } else {
      assert b < 0;
      NegativeDigits(a);
      NegativeDigits(b);
      NatToStringInjective(-a, -b);
    }
  }

  /** After the minus sign of a negative number come the digits of its magnitude. */
  lemma NegativeDigits(n: int)
    requires n < 0
    ensures IntToString(n)[1..] == NatToString(-n)
  {
    var x := NatToString(-n);
    assert ("-" + x)[1..] == x;
  }

  /** Different tweets have different URLs. */
  lemma CreateTweetUrlInjective(a: int, b: int)
    requires CreateTweetUrl(a) == CreateTweetUrl(b)
    ensures a == b
  {
    IntToStringInjective(a, b);
  }

  // ---------------------------------------------------------------------------
  // Sampling one company's group
  // ---------------------------------------------------------------------------

  /** A row of the normalised dataset, as the coding processor reads it; a missing hashtag cell is `None`. */
  datatype Tweet = Tweet(
    id: int,
    company: string,
    userScreenName: string,
    retweeted: bool,
    hashtags: Option<string>,
    tweetNorm: string,
    profileNorm: string)

  /**
   * The row filter of `get_sample_tweets` as written: `&` binds tighter than
   * `|`, so it admits retweets without hashtags and any tweet with a hashtag
   * cell shorter than three characters.
   */
  predicate EligibleAsWritten(t: Tweet) {
    (t.retweeted && t.hashtags.None?) || (t.hashtags.Some? && |t.hashtags.value| < 3)
  }

  /** The filter its comments describe: an original tweet with an empty or small hashtag list. */
  predicate Eligible(t: Tweet) {
    !t.retweeted && (t.hashtags.None? || |t.hashtags.value| < 3)
  }

  /** The row filter of `get_sample_tweets` under the given reading. */
  predicate Admits(v: Reading, t: Tweet) {
    match v
    case AsWritten => EligibleAsWritten(t)
    case Intended => Eligible(t)
  }

  /** The rows the filter admits, in frame order: the frame `sample(1)` draws from. */
  function EligibleRows(v: Reading, group: seq<Tweet>): (r: seq<Tweet>)
    ensures forall t :: t in r <==> t in group && Admits(v, t)
  {
    if group == [] then []
    else
      assert group == [group[0]] + group[1..];
      (if Admits(v, group[0]) then [group[0]] else []) + EligibleRows(v, group[1..])
  }

  /**
   * As written, a bare retweet is eligible and an original tweet without a
   * hashtag cell (read as `NaN`) is not. A group holding only the retweet
   * therefore has rows to draw from as written and none as intended, and a
   * group holding only the original the other way round; drawing from no rows
   * is the `ValueError` of `GetSampleTweets`.
   */
  lemma EligibleAsWrittenDiffers()
    ensures var rt := Tweet(1, "adani", "a", true, None, "RT @b: x", "");
      && EligibleAsWritten(rt) && !Eligible(rt)
      && EligibleRows(AsWritten, [rt]) == [rt] && EligibleRows(Intended, [rt]) == []
    ensures var original := Tweet(2, "adani", "a", false, None, "x", "");
      && !EligibleAsWritten(original) && Eligible(original)
      && EligibleRows(AsWritten, [original]) == [] && EligibleRows(Intended, [original]) == [original]
  {
    var rt := Tweet(1, "adani", "a", true, None, "RT @b: x", "");
    var original := Tweet(2, "adani", "a", false, None, "x", "");
    assert [rt][1..] == [] && [original][1..] == [];
  }

  /**
   * Under the intended filter every row a sample holds is an original tweet
   * with an empty or short hashtag list.
   */
  lemma EligibleNeverRetweet(rows: seq<SampledRow>, ids: set<int>, group: seq<Tweet>, m: Matcher, accessible: string -> bool)
    requires Sampled(Intended, rows, ids, group, m, accessible)
    ensures forall k :: 0 <= k < |rows| ==>
      rows[k].tweet in group && !rows[k].tweet.retweeted
      && (rows[k].tweet.hashtags.None? || |rows[k].tweet.hashtags.value| < 3)
  {
  }

  /**
   * Every tweet the filter admits can be drawn: it is eligible row `d` for
   * some `d < n`, and a draw of `d` picks row `d % n`, which is `d`.
   */
  lemma EligibleDrawable(v: Reading, group: seq<Tweet>, t: Tweet)
    requires t in group && Admits(v, t)
    ensures exists d: nat :: d < |EligibleRows(v, group)| && EligibleRows(v, group)[d] == t
  {
    var eligible := EligibleRows(v, group);
    assert t in eligible;
    var d: nat :| d < |eligible| && eligible[d] == t;
  }

  /** A sampled row: the tweet with its URL, its text to code and empty coding fields. */
  datatype SampledRow = SampledRow(tweet: Tweet, tweetUrl: string, tweetToCode: string, stance: string, confidence: string)

  /** The ways a sampling run can end. */
  datatype Outcome<T> =
    | Done(value: T)
    | OutOfDraws       // the draws supplied ran out before `size` rows were found; the source keeps drawing
    | Failed(error: PyError)

  /** The ids of the sampled rows. */
  function Ids(rows: seq<SampledRow>): set<int> {
    set k | 0 <= k < |rows| :: rows[k].tweet.id
  }

  /** No id occurs twice. */
  predicate DistinctIds(rows: seq<SampledRow>) {
    forall j, k :: 0 <= j < k < |rows| ==> rows[j].tweet.id != rows[k].tweet.id
  }

  /** Appending a row with a new id keeps the ids distinct. */
  lemma AppendDistinct(rows: seq<SampledRow>, row: SampledRow)
    requires DistinctIds(rows) && row.tweet.id !in Ids(rows)
    ensures DistinctIds(rows + [row])
    ensures Ids(rows + [row]) == Ids(rows) + {row.tweet.id}
  {
    var all := rows + [row];
    forall j, k | 0 <= j < k < |all|
      ensures all[j].tweet.id != all[k].tweet.id
    {
      if k == |rows| {
        assert all[j].tweet.id in Ids(rows);
      }
    }
    assert forall k :: 0 <= k < |rows| ==> all[k] == rows[k];
    assert all[|rows|] == row;
  }

  /** A row built from an eligible, accessible tweet of the group. */
  predicate FromGroup(v: Reading, row: SampledRow, group: seq<Tweet>, m: Matcher, accessible: string -> bool) {
    row.tweet in group && Admits(v, row.tweet)
    && row.tweetUrl == CreateTweetUrl(row.tweet.id) && accessible(row.tweetUrl)
    && row.tweetToCode == row.tweet.tweetNorm[MentionRunEnd(m, row.tweet.tweetNorm, 0)..]
    && row.stance == "" && row.confidence == ""
  }

  /** The rows drawn so far: distinct ids, each row built from an eligible, accessible tweet of the group. */
  predicate Sampled(v: Reading, rows: seq<SampledRow>, currentIds: set<int>, group: seq<Tweet>, m: Matcher, accessible: string -> bool) {
    currentIds == Ids(rows) && DistinctIds(rows)
    && forall j :: 0 <= j < |rows| ==> FromGroup(v, rows[j], group, m, accessible)
  }

  /**
   * One draw of `get_sample_tweets`: the drawn tweet is kept, with its URL,
   * its text to code and empty coding fields, when its URL is accessible and
   * its id is not taken yet; otherwise nothing changes.
   */
  method Consider(v: Reading, group: seq<Tweet>, rows: seq<SampledRow>, currentIds: set<int>, tweet: Tweet, m: Matcher, accessible: string -> bool)
    returns (rows': seq<SampledRow>, currentIds': set<int>)
    requires tweet in group && Admits(v, tweet)
    requires Sampled(v, rows, currentIds, group, m, accessible)
    ensures Sampled(v, rows', currentIds', group, m, accessible)
    ensures var url := CreateTweetUrl(tweet.id);
      if accessible(url) && tweet.id !in Ids(rows)
      then rows' == rows + [SampledRow(tweet, url, tweet.tweetNorm[MentionRunEnd(m, tweet.tweetNorm, 0)..], "", "")]
      else rows' == rows
  {
    rows', currentIds' := rows, currentIds;
    var url := CreateTweetUrl(tweet.id);
    if accessible(url) && tweet.id !in currentIds {
      var toCode := RemovePrependedMentions(m, tweet.tweetNorm);
      var row := SampledRow(tweet, url, toCode, "", "");
      AppendDistinct(rows, row);
      rows' := rows + [row];
      currentIds' := currentIds + {tweet.id};
    }
  }

  /**
   * `get_sample_tweets`: draw tweets the filter admits one at a time and
   * keep those that are accessible and not yet taken, until `size` rows are
   * kept. Draw `k` picks eligible row `draws[k] % n`; sampling from no
   * eligible rows raises `ValueError`. `AsWritten` applies the filter of
   * lines 49-53 as it is written, `Intended` the one its comments describe.
   */
  method GetSampleTweets(v: Reading, group: seq<Tweet>, size: int, draws: seq<nat>, m: Matcher, accessible: string -> bool)
    returns (r: Outcome<seq<SampledRow>>)
    ensures r.Done? ==> |r.value| == (if size > 0 then size else 0)
    ensures r.Done? ==> Sampled(v, r.value, Ids(r.value), group, m, accessible)
    ensures r.Failed? <==> size > 0 && EligibleRows(v, group) == []
    ensures r.Failed? ==> r.error.ValueError?
    ensures r.OutOfDraws? ==> size > 0 && EligibleRows(v, group) != []
  {
    var rows: seq<SampledRow> := [];
    var currentIds: set<int> := {};
    var k := 0;
    while |rows| < size
      invariant 0 <= k <= |draws|
      invariant |rows| <= if size > 0 then size else 0
      invariant Sampled(v, rows, currentIds, group, m, accessible)
      invariant EligibleRows(v, group) == [] ==> rows == []
      decreases |draws| - k
    {
      var eligible := EligibleRows(v, group);
      if eligible == [] {
        return Failed(ValueError("cannot take a sample from an empty frame"));
      }
      if k == |draws| {
        return OutOfDraws;
      }
      var tweet := eligible[draws[k] % |eligible|];
      k := k + 1;
      assert tweet in eligible;
      rows, currentIds := Consider(v, group, rows, currentIds, tweet, m, accessible);
    }
    return Done(rows);
  }

  // ---------------------------------------------------------------------------
  // The coding set
  // ---------------------------------------------------------------------------

  /** A row of the coding file, in its column order: coding columns, then data columns. */
  datatype CodingRow = CodingRow(
    stance: string,
    confidence: string,
    value: string,
    id: int,
    tweetUrl: string,
    company: string,
    userScreenName: string,
    tweetNorm: string,
    profileNorm: string)

  /** A company group is coded when no names are given or its name is among them. */
  predicate Included(name: string, companyNames: Option<seq<string>>) {
    companyNames.None? || name in companyNames.value
  }

  /** The written columns of a sampled row, with `??` in the three coding columns. */
  function ToCodingRow(row: SampledRow): (c: CodingRow)
    ensures c.stance == "??" && c.confidence == "??" && c.value == "??"
    ensures c.id == row.tweet.id && c.tweetUrl == row.tweetUrl && c.company == row.tweet.company
    ensures c.userScreenName == row.tweet.userScreenName && c.tweetNorm == row.tweet.tweetNorm
      && c.profileNorm == row.tweet.profileNorm
  {
    var t := row.tweet;
    CodingRow("??", "??", "??", t.id, row.tweetUrl, t.company, t.userScreenName, t.tweetNorm, t.profileNorm)
  }

  /** How many groups are coded. */
  function IncludedCount(groups: seq<(string, seq<Tweet>)>, companyNames: Option<seq<string>>): (n: nat)
    ensures n <= |groups|
    ensures companyNames.None? ==> n == |groups|
  {
    if groups == [] then 0
    else IncludedCount(groups[..|groups| - 1], companyNames) + (if Included(groups[|groups| - 1].0, companyNames) then 1 else 0)
  }

  lemma IncludedCountStep(groups: seq<(string, seq<Tweet>)>, companyNames: Option<seq<string>>, g: nat)
    requires g < |groups|
    ensures IncludedCount(groups[..g + 1], companyNames)
      == IncludedCount(groups[..g], companyNames) + (if Included(groups[g].0, companyNames) then 1 else 0)
  {
    assert groups[..g + 1][..g] == groups[..g];
  }

  /** The data columns of a coding row are those of the tweet, with the tweet's URL. */
  predicate DataOf(row: CodingRow, t: Tweet) {
    row.id == t.id && row.tweetUrl == CreateTweetUrl(t.id) && row.company == t.company
    && row.userScreenName == t.userScreenName && row.tweetNorm == t.tweetNorm && row.profileNorm == t.profileNorm
  }

  /** The row was coded from a tweet of an included group that the filter admits. */
  ghost predicate CodedFrom(v: Reading, row: CodingRow, groups: seq<(string, seq<Tweet>)>, companyNames: Option<seq<string>>) {
    exists g, t :: 0 <= g < |groups| && Included(groups[g].0, companyNames)
      && t in groups[g].1 && Admits(v, t) && DataOf(row, t)
  }

  /** Every row holds `??` in its three coding columns and was coded from an admitted tweet of an included group. */
  ghost predicate AllCoded(v: Reading, rows: seq<CodingRow>, groups: seq<(string, seq<Tweet>)>, companyNames: Option<seq<string>>) {
    forall k :: 0 <= k < |rows| ==>
      rows[k].stance == "??" && rows[k].confidence == "??" && rows[k].value == "??"
      && CodedFrom(v, rows[k], groups, companyNames)
  }

  lemma AllCodedConcat(v: Reading, a: seq<CodingRow>, b: seq<CodingRow>, groups: seq<(string, seq<Tweet>)>, companyNames: Option<seq<string>>)
    requires AllCoded(v, a, groups, companyNames) && AllCoded(v, b, groups, companyNames)
    ensures AllCoded(v, a + b, groups, companyNames)
  {
    var c := a + b;
    forall k | 0 <= k < |c|
      ensures c[k].stance == "??" && c[k].confidence == "??" && c[k].value == "??"
        && CodedFrom(v, c[k], groups, companyNames)
    {
      if k < |a| {
        assert c[k] == a[k];
      } else {
        assert c[k] == b[k - |a|];
      }
    }
  }

  /** The written rows of one included group's sample. */
  function CodingRows(sample: seq<SampledRow>): (r: seq<CodingRow>)
    ensures |r| == |sample| && forall k :: 0 <= k < |sample| ==> r[k] == ToCodingRow(sample[k])
  {
    seq(|sample|, k requires 0 <= k < |sample| => ToCodingRow(sample[k]))
  }

  /** The rows of a sample drawn from an included group are coded from it. */
  lemma SampleCoded(v: Reading, groups: seq<(string, seq<Tweet>)>, companyNames: Option<seq<string>>, g: nat,
                    sample: seq<SampledRow>, m: Matcher, accessible: string -> bool)
    requires g < |groups| && Included(groups[g].0, companyNames)
    requires forall k :: 0 <= k < |sample| ==> FromGroup(v, sample[k], groups[g].1, m, accessible)
    ensures AllCoded(v, CodingRows(sample), groups, companyNames)
  {
    var rows := CodingRows(sample);
    forall k | 0 <= k < |rows|
      ensures CodedFrom(v, rows[k], groups, companyNames)
    {
      var t := sample[k].tweet;
      assert t in groups[g].1 && Admits(v, t) && DataOf(rows[k], t);
    }
  }

  /**
   * One group's block of the coding set: `??`-coded rows with distinct ids,
   * each carrying the data columns of a tweet of the group that the filter
   * admits.
   */
  ghost predicate GroupBlock(v: Reading, block: seq<CodingRow>, group: seq<Tweet>) {
    (forall k :: 0 <= k < |block| ==>
      block[k].stance == "??" && block[k].confidence == "??" && block[k].value == "??"
      && exists t :: t in group && Admits(v, t) && DataOf(block[k], t))
    && forall j, k :: 0 <= j < k < |block| ==> block[j].id != block[k].id
  }

  /** How many rows a group contributes: `per` when it is included, none otherwise. */
  function BlockSize(companyNames: Option<seq<string>>, per: nat): ((string, seq<Tweet>)) -> nat {
    (g: (string, seq<Tweet>)) => if Included(g.0, companyNames) then per else 0
  }

  /** What a group contributes: a block of it when it is included, nothing otherwise. */
  ghost function BlockOf(v: Reading, companyNames: Option<seq<string>>): ((string, seq<Tweet>), seq<CodingRow>) -> bool {
    (g: (string, seq<Tweet>), block: seq<CodingRow>) =>
      if Included(g.0, companyNames) then GroupBlock(v, block, g.1) else block == []
  }

  /**
   * The coding set group by group, in the order of the groups: a block of
   * `per` rows for each included group, nothing for the others.
   */
  ghost predicate Blocks(v: Reading, rows: seq<CodingRow>, groups: seq<(string, seq<Tweet>)>, companyNames: Option<seq<string>>, per: nat) {
    Tiled(BlockOf(v, companyNames), BlockSize(companyNames, per), groups, rows)
  }

  /** The rows before a group's block are `per` for each included group before it. */
  lemma {:induction false} BlockSizeTotal(groups: seq<(string, seq<Tweet>)>, companyNames: Option<seq<string>>, per: nat)
    ensures Total(BlockSize(companyNames, per), groups) == IncludedCount(groups, companyNames) * per
    decreases |groups|
  {
    if groups != [] {
      var before := groups[..|groups| - 1];
      BlockSizeTotal(before, companyNames, per);
      if Included(groups[|groups| - 1].0, companyNames) {
        OneMoreGroup(IncludedCount(before, companyNames), per);
      }
    }
  }

  /**
   * Where a group's block sits: an included group `g` owns the `per` rows
   * that start after the blocks of the included groups before it.
   */
  lemma BlockOfGroup(v: Reading, rows: seq<CodingRow>, groups: seq<(string, seq<Tweet>)>,
                     companyNames: Option<seq<string>>, per: nat, g: nat)
    requires Blocks(v, rows, groups, companyNames, per)
    requires g < |groups| && Included(groups[g].0, companyNames)
    ensures IncludedCount(groups[..g], companyNames) * per + per <= |rows|
    ensures GroupBlock(v, rows[IncludedCount(groups[..g], companyNames) * per..IncludedCount(groups[..g], companyNames) * per + per], groups[g].1)
  {
    TileAt(BlockOf(v, companyNames), BlockSize(companyNames, per), groups, rows, g);
    BlockSizeTotal(groups[..g], companyNames, per);
  }

  /** A group's sample, written out, is a block of that group. */
  lemma SampleBlock(v: Reading, group: seq<Tweet>, sample: seq<SampledRow>, m: Matcher, accessible: string -> bool)
    requires Sampled(v, sample, Ids(sample), group, m, accessible)
    ensures GroupBlock(v, CodingRows(sample), group)
  {
    var rows := CodingRows(sample);
    forall k | 0 <= k < |rows|
      ensures exists t :: t in group && Admits(v, t) && DataOf(rows[k], t)
    {
      assert FromGroup(v, sample[k], group, m, accessible);
      assert DataOf(rows[k], sample[k].tweet);
    }
  }

  /** The coding set after the first `g` groups: its size, its coding, and its blocks. */
  ghost predicate CodedSoFar(v: Reading, codingSet: seq<CodingRow>, groups: seq<(string, seq<Tweet>)>,
                             companyNames: Option<seq<string>>, per: nat, g: nat)
  {
    g <= |groups|
    && |codingSet| == IncludedCount(groups[..g], companyNames) * per
    && AllCoded(v, codingSet, groups, companyNames)
    && Blocks(v, codingSet, groups[..g], companyNames, per)
  }

  /** An included group adds its sample's rows; any other group adds nothing. */
  lemma CodedSoFarStep(v: Reading, codingSet: seq<CodingRow>, groups: seq<(string, seq<Tweet>)>,
                       companyNames: Option<seq<string>>, per: nat, g: nat,
                       sample: seq<SampledRow>, m: Matcher, accessible: string -> bool)
    requires g < |groups| && CodedSoFar(v, codingSet, groups, companyNames, per, g)
    requires Included(groups[g].0, companyNames) ==>
      |sample| == per && Sampled(v, sample, Ids(sample), groups[g].1, m, accessible)
    ensures Included(groups[g].0, companyNames) ==>
      CodedSoFar(v, codingSet + CodingRows(sample), groups, companyNames, per, g + 1)
    ensures !Included(groups[g].0, companyNames) ==>
      CodedSoFar(v, codingSet, groups, companyNames, per, g + 1)
  {
    IncludedCountStep(groups, companyNames, g);
    var n := IncludedCount(groups[..g], companyNames);
    if Included(groups[g].0, companyNames) {
      SampleCoded(v, groups, companyNames, g, sample, m, accessible);
      AllCodedConcat(v, codingSet, CodingRows(sample), groups, companyNames);
      OneMoreGroup(n, per);
      SampleBlock(v, groups[g].1, sample, m, accessible);
      TiledStep(BlockOf(v, companyNames), BlockSize(companyNames, per), groups, g, codingSet, CodingRows(sample));
    } else {
      TiledStep(BlockOf(v, companyNames), BlockSize(companyNames, per), groups, g, codingSet, []);
      assert codingSet + [] == codingSet;
    }
  }

  /** One more included group adds `per` rows to the count. */
  lemma OneMoreGroup(n: nat, per: nat)
    ensures (n + 1) * per == n * per + per
  {
  }

  /** Some group that is coded has no row the filter admits. */
  predicate SomeGroupEmpty(v: Reading, groups: seq<(string, seq<Tweet>)>, companyNames: Option<seq<string>>) {
    exists g :: 0 <= g < |groups| && Included(groups[g].0, companyNames) && EligibleRows(v, groups[g].1) == []
  }

  /** With a positive size, every coded group among the first `g` had a row the filter admits. */
  ghost predicate NoneEmptySoFar(v: Reading, groups: seq<(string, seq<Tweet>)>, companyNames: Option<seq<string>>, size: int, g: nat) {
    size > 0 ==> forall h :: 0 <= h < g && h < |groups| && Included(groups[h].0, companyNames) ==> EligibleRows(v, groups[h].1) != []
  }

  /** A group whose sample was drawn, or that is not coded, extends the run of non-empty groups. */
  lemma NoneEmptyStep(v: Reading, groups: seq<(string, seq<Tweet>)>, companyNames: Option<seq<string>>, size: int, g: nat)
    requires g < |groups| && NoneEmptySoFar(v, groups, companyNames, size, g)
    requires size > 0 && Included(groups[g].0, companyNames) ==> EligibleRows(v, groups[g].1) != []
    ensures NoneEmptySoFar(v, groups, companyNames, size, g + 1)
  {
  }

  /** After every group, no coded group is empty. */
  lemma NoneEmptyAll(v: Reading, groups: seq<(string, seq<Tweet>)>, companyNames: Option<seq<string>>, size: int)
    requires NoneEmptySoFar(v, groups, companyNames, size, |groups|)
    ensures !(size > 0 && SomeGroupEmpty(v, groups, companyNames))
  {
  }

  /**
   * `create_save_coding_set`: for each company group in turn, if it is
   * included, its sample is appended; then the coding columns are set to
   * `??`. `draws[g]` are the draws made for group `g`; `v` selects the
   * sampling filter as written or as intended.
   */
  method CreateCodingSet(v: Reading, groups: seq<(string, seq<Tweet>)>, size: int, companyNames: Option<seq<string>>,
                         draws: seq<seq<nat>>, m: Matcher, accessible: string -> bool)
    returns (r: Outcome<seq<CodingRow>>)
    requires |draws| == |groups|
    ensures r.Done? ==> |r.value| == IncludedCount(groups, companyNames) * (if size > 0 then size else 0)
    ensures r.Done? ==> AllCoded(v, r.value, groups, companyNames)
    ensures r.Done? ==> Blocks(v, r.value, groups, companyNames, if size > 0 then size else 0)
    ensures r.Failed? ==> r.error.ValueError? && size > 0 && SomeGroupEmpty(v, groups, companyNames)
    ensures size > 0 && SomeGroupEmpty(v, groups, companyNames) ==> !r.Done?
    ensures r.OutOfDraws? ==> size > 0
  {
    var codingSet: seq<CodingRow> := [];
    var per := if size > 0 then size else 0;
    for g := 0 to |groups|
      invariant CodedSoFar(v, codingSet, groups, companyNames, per, g)
      invariant NoneEmptySoFar(v, groups, companyNames, size, g)
    {
      var (name, group) := groups[g];
      if Included(name, companyNames) {
        var sample := GetSampleTweets(v, group, size, draws[g], m, accessible);
        if sample.OutOfDraws? {
          return OutOfDraws;
        }
        if sample.Failed? {
          assert Included(groups[g].0, companyNames) && EligibleRows(v, groups[g].1) == [];
          return Failed(sample.error);
        }
        NoneEmptyStep(v, groups, companyNames, size, g);
        CodedSoFarStep(v, codingSet, groups, companyNames, per, g, sample.value, m, accessible);
        codingSet := codingSet + CodingRows(sample.value);
      } else {
        CodedSoFarStep(v, codingSet, groups, companyNames, per, g, [], m, accessible);
        NoneEmptyStep(v, groups, companyNames, size, g);
      }
    }
    assert groups[..|groups|] == groups;
    NoneEmptyAll(v, groups, companyNames, size);
    return Done(codingSet);
  }
}
