/**
 * The per-record rules of `src/dataset_preprocessor.py`: retweet detection,
 * full-text reconstruction, newline cleaning, language and company
 * attribution with their two global tallies, the keep/drop filter and the
 * chunk loop of `create_dataset`.
 *
 * Reading and writing JSON and CSV is not modelled: a chunk is a sequence of
 * already decoded tweets, and a chunk written to the output file is a
 * `CsvWrite` value.
 */
module DatasetPreprocessor {
  import opened Wrappers
  import opened Text
  import opened Regex
  import opened Frames

  /** One entry of `PTN_companies`: the company, a pattern for its tweets, its own screen name. */
  datatype CompanyPattern = CompanyPattern(company: string, tweetPattern: Matcher, screenName: string)

  /**
   * The constants the module takes from `src/settings.py` (`RETWEET_START`,
   * `PTN_rt`, `REGEX_BAD_CHARS`, `PTN_companies`) and the language detector,
   * which is a foreign library and so a parameter.
   */
  datatype Settings = Settings(
    retweetStart: string,
    rt: Matcher,
    badChars: Matcher,
    companies: seq<CompanyPattern>,
    detect: string -> string)

  /** A decoded raw tweet: the fields `create_dataset` reads. */
  datatype RawTweet = RawTweet(
    id: int,
    createdAt: string,
    fullText: string,
    retweetedStatus: Option<string>,  // the original tweet's full text, when the status is not null
    lang: string,
    screenName: string,
    description: string,
    hashtags: seq<string>)

  /** A row of the output file: the columns `create_dataset` keeps, in its order. */
  datatype Record = Record(
    id: int,
    createdAt: string,
    lang: string,
    langPolyglot: string,
    retweeted: bool,
    hashtags: string,
    company: string,
    text: string,
    userScreenName: string,
    userDescription: string)

  // ---------------------------------------------------------------------------
  // Pure field rules
  // ---------------------------------------------------------------------------

  /** `clean_text`: every line feed and carriage return becomes a space. */
  function CleanText(text: string): (r: string)
    ensures |r| == |text|
    ensures '\n' !in r && '\r' !in r
    ensures forall i :: 0 <= i < |text| ==>
      r[i] == (if text[i] == '\n' || text[i] == '\r' then ' ' else text[i])
  {
    ReplaceChar(ReplaceChar(text, '\n', ' '), '\r', ' ')
  }

  lemma CleanTextIdempotent(text: string)
    ensures CleanText(CleanText(text)) == CleanText(text)
  {
    var once := CleanText(text);
    assert forall i :: 0 <= i < |once| ==> once[i] != '\n' && once[i] != '\r';
  }

  /** `compute_retweet` */
  predicate ComputeRetweet(S: Settings, fullText: string) {
    StartsWith(fullText, S.retweetStart)
  }

  /** A truncated retweet: it starts with the retweet marker, ends with an ellipsis and carries its original. */
  predicate Truncated(S: Settings, t: RawTweet) {
    ComputeRetweet(S, t.fullText) && EndsWith(t.fullText, "…") && t.retweetedStatus.Some?
  }

  /**
   * `compute_full_text`: a truncated retweet is rebuilt as its `RT @user:`
   * header followed by the original's full text; every text is then
   * cleaned. A header that `PTN_rt` does not find makes `.group()` fail on
   * `None`.
   */
  function ComputeFullText(S: Settings, t: RawTweet): (r: Result<string>)
    ensures !Truncated(S, t) ==> r == Ok(CleanText(t.fullText))
    ensures Truncated(S, t) ==> (r.Ok? <==> Search(S.rt, t.fullText).Some?)
    ensures r.Err? ==> r == Err(AttributeError)
    ensures r.Ok? && Truncated(S, t) ==>
      r.value == CleanText(Search(S.rt, t.fullText).value + t.retweetedStatus.value)
    ensures r.Ok? ==> '\n' !in r.value && '\r' !in r.value
  {
    if Truncated(S, t) then
      match Search(S.rt, t.fullText)
      case None => Err(AttributeError)
      case Some(header) => Ok(CleanText(header + t.retweetedStatus.value))
    else Ok(CleanText(t.fullText))
  }

  /** `remove_bad_chars`: every match of `REGEX_BAD_CHARS` is deleted. */
  function RemoveBadChars(S: Settings, text: string): (r: string)
    ensures |Gaps(S.badChars, text, 0)| == |FindAll(S.badChars, text, 0)| + 1
    ensures r == Fill(Gaps(S.badChars, text, 0), Repeat("", |FindAll(S.badChars, text, 0)|))
    ensures |r| == |text| - TotalLength(FindAll(S.badChars, text, 0))
    ensures FindAll(S.badChars, text, 0) == [] ==> r == text
  {
    SubConstant(S.badChars, "", text, 0);
    SubDeletes(S.badChars, text, 0);
    Sub(S.badChars, Constant(""), text, 0)
  }

  /** `update_language`'s result: English codes are kept, anything else is re-detected. */
  function LanguageOf(S: Settings, lang: string, fullText: string): string {
    if StartsWith(lang, "en") then lang else S.detect(RemoveBadChars(S, fullText))
  }

  /**
   * The companies `compute_company` attributes, in pattern order: the first
   * pattern whose screen name is the author's ends the scan with its company;
   * before that, every pattern that finds a match in the tweet contributes
   * its company.
   */
  function Companies(patterns: seq<CompanyPattern>, tweet: string, author: string): (r: seq<string>)
    ensures |r| <= |patterns|
  {
    if patterns == [] then []
    else if author == patterns[0].screenName then [patterns[0].company]
    else
      var head := if Search(patterns[0].tweetPattern, tweet).Some? then [patterns[0].company] else [];
      head + Companies(patterns[1..], tweet, author)
  }

  /** The company names of the patterns, in order. */
  function CompanyNames(patterns: seq<CompanyPattern>): (r: seq<string>)
    ensures |r| == |patterns| && forall j :: 0 <= j < |patterns| ==> r[j] == patterns[j].company
  {
    seq(|patterns|, j requires 0 <= j < |patterns| => patterns[j].company)
  }

  /** Every attributed company is the company of some pattern. */
  lemma {:induction false} CompaniesNamed(patterns: seq<CompanyPattern>, tweet: string, author: string)
    ensures forall c :: c in Companies(patterns, tweet, author) ==> c in CompanyNames(patterns)
  {
    if patterns != [] {
      var names := CompanyNames(patterns);
      assert names == [patterns[0].company] + CompanyNames(patterns[1..]);
      if author != patterns[0].screenName {
        CompaniesNamed(patterns[1..], tweet, author);
      }
    }
  }

  /** The companies whose tweet pattern finds a match, in pattern order. */
  function TweetMatches(patterns: seq<CompanyPattern>, tweet: string): (r: seq<string>)
    ensures |r| <= |patterns|
  {
    if patterns == [] then []
    else
      var head := if Search(patterns[0].tweetPattern, tweet).Some? then [patterns[0].company] else [];
      head + TweetMatches(patterns[1..], tweet)
  }

  /** When no pattern names the author, every pattern is tried against the tweet. */
  lemma {:induction false} CompaniesWithoutAuthor(patterns: seq<CompanyPattern>, tweet: string, author: string)
    requires forall j :: 0 <= j < |patterns| ==> author != patterns[j].screenName
    ensures Companies(patterns, tweet, author) == TweetMatches(patterns, tweet)
  {
    if patterns != [] {
      CompaniesWithoutAuthor(patterns[1..], tweet, author);
    }
  }

  /**
   * When pattern `k` is the first to name the author, the result is the tweet
   * matches of the earlier patterns followed by company `k`; later patterns
   * are not consulted.
   */
  lemma {:induction false} CompaniesAuthorStops(patterns: seq<CompanyPattern>, tweet: string, author: string, k: nat)
    requires k < |patterns| && author == patterns[k].screenName
    requires forall j :: 0 <= j < k ==> author != patterns[j].screenName
    ensures Companies(patterns, tweet, author) == TweetMatches(patterns[..k], tweet) + [patterns[k].company]
  {
    if k > 0 {
      CompaniesAuthorStops(patterns[1..], tweet, author, k - 1);
      assert patterns[1..][..k - 1] == patterns[..k][1..];
    }
  }

  /** With non-empty company names, the joined result is `''` exactly when no pattern applies. */
  lemma CompanyEmptyIffUnknown(patterns: seq<CompanyPattern>, tweet: string, author: string)
    requires forall j :: 0 <= j < |patterns| ==> patterns[j].company != ""
    ensures var cs := Companies(patterns, tweet, author);
      Join("|", cs) == "" <==> cs == []
  {
    var cs := Companies(patterns, tweet, author);
    if cs != [] {
      CompaniesNamed(patterns, tweet, author);
      assert cs[0] in CompanyNames(patterns);
      JoinStartsWith("|", cs);
    }
  }

  /** The scan `compute_company` makes over the patterns, stopping at the first whose screen name is the author's. */
  method AssociatedCompanies(patterns: seq<CompanyPattern>, tweet: string, author: string) returns (associated: seq<string>)
    ensures associated == Companies(patterns, tweet, author)
  {
    associated := [];
    ghost var all := Companies(patterns, tweet, author);
    var rest := patterns;
    while rest != []
      invariant all == associated + Companies(rest, tweet, author)
    {
      var pattern := rest[0];
      ScanStep(rest, tweet, author, associated);
      if author == pattern.screenName {
        associated := associated + [pattern.company];
        break;
      }
      if Search(pattern.tweetPattern, tweet).Some? {
        associated := associated + [pattern.company];
      }
      rest := rest[1..];
    }
  }

  /** The scan's invariant carried over its next pattern. */
  lemma ScanStep(rest: seq<CompanyPattern>, tweet: string, author: string, associated: seq<string>)
    requires rest != []
    ensures author == rest[0].screenName ==>
      associated + Companies(rest, tweet, author) == associated + [rest[0].company]
    ensures author != rest[0].screenName ==>
      associated + Companies(rest, tweet, author) ==
      (associated + if Search(rest[0].tweetPattern, tweet).Some? then [rest[0].company] else [])
      + Companies(rest[1..], tweet, author)
  {
  }

  /** A joined string starts with its first part. */
  lemma JoinStartsWith(sep: string, parts: seq<string>)
    requires parts != []
    ensures |Join(sep, parts)| >= |parts[0]| && Join(sep, parts)[..|parts[0]|] == parts[0]
  {
    if |parts| > 1 {
      assert Join(sep, parts) == parts[0] + (sep + Join(sep, parts[1..]));
    }
  }

  // ---------------------------------------------------------------------------
  // The two global tallies
  // ---------------------------------------------------------------------------

  /** `__unknown_company_count_global__` and `__non_english_count_global__`. */
  class Tallies {
    var unknownCompany: nat
    var nonEnglish: nat

    constructor ()
      ensures unknownCompany == 0 && nonEnglish == 0
    {
      unknownCompany := 0;
      nonEnglish := 0;
    }

    /**
     * `update_language`: the polyglot language code; the non-English tally
     * rises by one exactly when that code does not start with `en`.
     */
    method UpdateLanguage(S: Settings, lang: string, fullText: string) returns (r: string)
      modifies this
      ensures r == LanguageOf(S, lang, fullText)
      ensures StartsWith(lang, "en") ==> r == lang
      ensures nonEnglish == old(nonEnglish) + (if StartsWith(r, "en") then 0 else 1)
      ensures unknownCompany == old(unknownCompany)
    {
      if StartsWith(lang, "en") {
        return lang;
      }
      var lang2 := S.detect(RemoveBadChars(S, fullText));
      if !StartsWith(lang2, "en") {
        nonEnglish := nonEnglish + 1;
      }
      return lang2;
    }

    /**
     * `compute_company`: the `|`-joined companies of the lowercased tweet
     * text and author; the unknown-company tally rises by one exactly when
     * there are none.
     */
    method ComputeCompany(S: Settings, text: string, screenName: string) returns (r: string)
      modifies this
      ensures r == Join("|", Companies(S.companies, Lower(text), Lower(screenName)))
      ensures unknownCompany == old(unknownCompany) + (if Companies(S.companies, Lower(text), Lower(screenName)) == [] then 1 else 0)
      ensures nonEnglish == old(nonEnglish)
    {
      var associated := AssociatedCompanies(S.companies, Lower(text), Lower(screenName));
      if |associated| > 0 {
        return Join("|", associated);
      }
      unknownCompany := unknownCompany + 1;
      return "";
    }

    /** The `lang_polyglot` column: `update_language` over every row, in order. */
    method LanguageColumn(S: Settings, chunk: seq<RawTweet>) returns (langs: seq<string>)
      modifies this
      ensures |langs| == |chunk|
      ensures forall i :: 0 <= i < |chunk| ==> langs[i] == LanguageOf(S, chunk[i].lang, chunk[i].fullText)
      ensures nonEnglish == old(nonEnglish) + Count(langs, NotEnglish)
      ensures unknownCompany == old(unknownCompany)
    {
      langs := [];
      for i := 0 to |chunk|
        invariant |langs| == i
        invariant forall k :: 0 <= k < i ==> langs[k] == LanguageOf(S, chunk[k].lang, chunk[k].fullText)
        invariant nonEnglish == old(nonEnglish) + Count(langs, NotEnglish)
        invariant unknownCompany == old(unknownCompany)
      {
        var code := UpdateLanguage(S, chunk[i].lang, chunk[i].fullText);
        CountSnoc(langs, code, NotEnglish);
        langs := langs + [code];
      }
    }

    /** The `company` column: `compute_company` over every row, on the rebuilt texts. */
    method CompanyColumn(S: Settings, chunk: seq<RawTweet>, texts: seq<string>) returns (companies: seq<string>)
      requires |texts| == |chunk|
      modifies this
      ensures |companies| == |chunk|
      ensures forall i :: 0 <= i < |chunk| ==>
        companies[i] == Join("|", Companies(S.companies, Lower(texts[i]), Lower(chunk[i].screenName)))
      ensures unknownCompany == old(unknownCompany) + Count(CompanyLists(S, chunk, texts), NoCompany)
      ensures nonEnglish == old(nonEnglish)
    {
      companies := [];
      ghost var lists: seq<seq<string>> := [];
      for i := 0 to |chunk|
        invariant ColumnSoFar(S, chunk, texts, lists, companies, i)
        invariant unknownCompany == old(unknownCompany) + Count(lists, NoCompany)
        invariant nonEnglish == old(nonEnglish)
      {
        var company := ComputeCompany(S, texts[i], chunk[i].screenName);
        var cs := Companies(S.companies, Lower(texts[i]), Lower(chunk[i].screenName));
        CountSnoc(lists, cs, NoCompany);
        ColumnStep(S, chunk, texts, lists, companies, i, company);
        lists := lists + [cs];
        companies := companies + [company];
      }
      ColumnDone(S, chunk, texts, lists, companies);
    }
  }

  // ---------------------------------------------------------------------------
  // Records and chunks
  // ---------------------------------------------------------------------------

  /** The output record of one tweet whose full text has been rebuilt as `text`. */
  function RecordOf(S: Settings, t: RawTweet, text: string): Record {
    Record(
      t.id, t.createdAt, t.lang, LanguageOf(S, t.lang, t.fullText), ComputeRetweet(S, t.fullText),
      Join(",", t.hashtags), Join("|", Companies(S.companies, Lower(text), Lower(t.screenName))),
      text, t.screenName, CleanText(t.description))
  }

  /** The companies attributed to a record. */
  function Attributed(S: Settings, r: Record): seq<string> {
    Companies(S.companies, Lower(r.text), Lower(r.userScreenName))
  }

  /**
   * The records of a chunk, or the failure of its full-text column (which
   * can only be the `AttributeError` of a missing retweet header).
   */
  function ChunkRecords(S: Settings, chunk: seq<RawTweet>): (r: Result<seq<Record>>)
    ensures r.Ok? <==> forall i :: 0 <= i < |chunk| ==> ComputeFullText(S, chunk[i]).Ok?
    ensures r.Err? ==> r == Err(AttributeError)
    ensures r.Ok? ==> |r.value| == |chunk|
    ensures r.Ok? ==> forall i :: 0 <= i < |chunk| ==> r.value[i] == RecordOf(S, chunk[i], ComputeFullText(S, chunk[i]).value)
  {
    if forall i :: 0 <= i < |chunk| ==> ComputeFullText(S, chunk[i]).Ok? then
      Ok(seq(|chunk|, i requires 0 <= i < |chunk| => RecordOf(S, chunk[i], ComputeFullText(S, chunk[i]).value)))
    else
      Err(AttributeError)
  }

  /** How many elements satisfy `p`. */
  function Count<T>(xs: seq<T>, p: T -> bool): (n: nat)
    ensures n <= |xs|
  {
    if xs == [] then 0 else (if p(xs[0]) then 1 else 0) + Count(xs[1..], p)
  }

  lemma {:induction false} CountSnoc<T>(xs: seq<T>, x: T, p: T -> bool)
    ensures Count(xs + [x], p) == Count(xs, p) + (if p(x) then 1 else 0)
  {
    if xs != [] {
      CountSnoc(xs[1..], x, p);
      assert (xs + [x])[1..] == xs[1..] + [x];
    }
  }

  /** A language code that is not English. */
  predicate NotEnglish(code: string) {
    !StartsWith(code, "en")
  }

  predicate NoCompany(cs: seq<string>) {
    cs == []
  }

  /** The records whose language code is not English. */
  function NonEnglish(rs: seq<Record>): nat {
    Count(seq(|rs|, i requires 0 <= i < |rs| => rs[i].langPolyglot), NotEnglish)
  }

  /** The companies of each row of a chunk, on its rebuilt text. */
  function CompanyLists(S: Settings, chunk: seq<RawTweet>, texts: seq<string>): (ls: seq<seq<string>>)
    requires |texts| == |chunk|
    ensures |ls| == |chunk|
    ensures forall i :: 0 <= i < |chunk| ==> ls[i] == Companies(S.companies, Lower(texts[i]), Lower(chunk[i].screenName))
  {
    seq(|chunk|, i requires 0 <= i < |chunk| => Companies(S.companies, Lower(texts[i]), Lower(chunk[i].screenName)))
  }

  /** The first `i` rows' company lists and joined `company` cells. */
  ghost predicate ColumnSoFar(S: Settings, chunk: seq<RawTweet>, texts: seq<string>, lists: seq<seq<string>>, companies: seq<string>, i: nat)
    requires |texts| == |chunk|
  {
    i <= |chunk| && |companies| == i && |lists| == i
    && (forall k :: 0 <= k < i ==> lists[k] == Companies(S.companies, Lower(texts[k]), Lower(chunk[k].screenName)))
    && (forall k :: 0 <= k < i ==> companies[k] == Join("|", lists[k]))
  }

  lemma ColumnStep(S: Settings, chunk: seq<RawTweet>, texts: seq<string>, lists: seq<seq<string>>, companies: seq<string>, i: nat, company: string)
    requires |texts| == |chunk| && i < |chunk|
    requires ColumnSoFar(S, chunk, texts, lists, companies, i)
    requires company == Join("|", Companies(S.companies, Lower(texts[i]), Lower(chunk[i].screenName)))
    ensures ColumnSoFar(S, chunk, texts, lists + [Companies(S.companies, Lower(texts[i]), Lower(chunk[i].screenName))], companies + [company], i + 1)
  {
  }

  lemma ColumnDone(S: Settings, chunk: seq<RawTweet>, texts: seq<string>, lists: seq<seq<string>>, companies: seq<string>)
    requires |texts| == |chunk|
    requires ColumnSoFar(S, chunk, texts, lists, companies, |chunk|)
    ensures lists == CompanyLists(S, chunk, texts)
    ensures |companies| == |chunk|
    ensures forall i :: 0 <= i < |chunk| ==>
      companies[i] == Join("|", Companies(S.companies, Lower(texts[i]), Lower(chunk[i].screenName)))
  {
  }

  /** The records no company pattern applies to. */
  function Unknown(S: Settings, rs: seq<Record>): nat {
    Count(seq(|rs|, i requires 0 <= i < |rs| => Attributed(S, rs[i])), NoCompany)
  }

  /** The `text` column: `compute_full_text` over every row; the first failure propagates. */
  method FullTexts(S: Settings, chunk: seq<RawTweet>) returns (r: Result<seq<string>>)
    ensures r.Ok? <==> forall i :: 0 <= i < |chunk| ==> ComputeFullText(S, chunk[i]).Ok?
    ensures r.Err? ==> r == Err(AttributeError)
    ensures r.Ok? ==> |r.value| == |chunk|
    ensures r.Ok? ==> forall i :: 0 <= i < |chunk| ==> ComputeFullText(S, chunk[i]) == Ok(r.value[i])
  {
    var texts: seq<string> := [];
    for i := 0 to |chunk|
      invariant |texts| == i
      invariant forall k :: 0 <= k < i ==> ComputeFullText(S, chunk[k]) == Ok(texts[k])
    {
      var t := ComputeFullText(S, chunk[i]);
      if t.Err? {
        return Err(t.error);
      }
      texts := texts + [t.value];
    }
    return Ok(texts);
  }

  /**
   * The column-by-column processing of one chunk: full texts first (a
   * failure there ends the run before any tally moves), then languages, then
   * companies, each a pass over all rows.
   */
  method ProcessChunk(S: Settings, tallies: Tallies, chunk: seq<RawTweet>) returns (r: Result<seq<Record>>)
    modifies tallies
    ensures r == ChunkRecords(S, chunk)
    ensures r.Err? ==> tallies.nonEnglish == old(tallies.nonEnglish) && tallies.unknownCompany == old(tallies.unknownCompany)
    ensures r.Ok? ==> tallies.nonEnglish == old(tallies.nonEnglish) + NonEnglish(r.value)
    ensures r.Ok? ==> tallies.unknownCompany == old(tallies.unknownCompany) + Unknown(S, r.value)
  {
    var texts := FullTexts(S, chunk);
    if texts.Err? {
      return Err(texts.error);
    }
    var langs := tallies.LanguageColumn(S, chunk);
    var companies := tallies.CompanyColumn(S, chunk, texts.value);
    var records := seq(|chunk|, i requires 0 <= i < |chunk| =>
      var t := chunk[i];
      Record(t.id, t.createdAt, t.lang, langs[i], ComputeRetweet(S, t.fullText), Join(",", t.hashtags),
        companies[i], texts.value[i], t.screenName, CleanText(t.description)));
    assert records == ChunkRecords(S, chunk).value;
    assert seq(|records|, i requires 0 <= i < |records| => records[i].langPolyglot) == langs;
    assert seq(|records|, i requires 0 <= i < |records| => Attributed(S, records[i])) == CompanyLists(S, chunk, texts.value);
    return Ok(records);
  }

  // ---------------------------------------------------------------------------
  // The drop filter and the chunk loop
  // ---------------------------------------------------------------------------

  /** A relevant tweet: a known company, and English by Twitter's code or by the detector's. */
  predicate Relevant(r: Record) {
    r.company != "" && (StartsWith(r.lang, "en") || StartsWith(r.langPolyglot, "en"))
  }

  predicate NotRetweet(r: Record) {
    !r.retweeted
  }

  /** The two drop steps of `create_dataset`, in its order. */
  function DropRows(rs: seq<Record>, dropIrrelevant: bool, keepRetweets: bool): seq<Record> {
    var relevant := if dropIrrelevant then Where(rs, Relevant) else rs;
    if keepRetweets then relevant else Where(relevant, NotRetweet)
  }

  /** Whether a record survives both drop steps. */
  predicate Keep(r: Record, dropIrrelevant: bool, keepRetweets: bool) {
    (!dropIrrelevant || Relevant(r)) && (keepRetweets || !r.retweeted)
  }

  /**
   * The two drop steps together keep, in order, exactly the records with a
   * known company and an English code (when irrelevant tweets are dropped)
   * that are not retweets (when retweets are not kept).
   */
  lemma DropRowsKeeps(rs: seq<Record>, dropIrrelevant: bool, keepRetweets: bool)
    ensures DropRows(rs, dropIrrelevant, keepRetweets) == Where(rs, r => Keep(r, dropIrrelevant, keepRetweets))
    ensures forall r :: r in DropRows(rs, dropIrrelevant, keepRetweets) <==> r in rs && Keep(r, dropIrrelevant, keepRetweets)
  {
    var keep := (r: Record) => Keep(r, dropIrrelevant, keepRetweets);
    if dropIrrelevant && !keepRetweets {
      WhereWhere(rs, Relevant, NotRetweet, keep);
    } else if dropIrrelevant {
      WhereSame(rs, Relevant, keep);
    } else if !keepRetweets {
      WhereSame(rs, NotRetweet, keep);
    } else {
      WhereAll(rs, keep);
    }
  }

  /**
   * Whether a tweet of a chunk survives the drop steps, in terms of the tweet
   * itself: with irrelevant tweets dropped it needs an attributed company and
   * an English code from Twitter or from the detector; with retweets dropped its raw
   * full text must not start with the retweet marker.
   */
  lemma KeptTweet(S: Settings, chunk: seq<RawTweet>, i: nat, dropIrrelevant: bool, keepRetweets: bool)
    requires ChunkRecords(S, chunk).Ok? && i < |chunk|
    ensures var rs := ChunkRecords(S, chunk).value;
      rs[i] in DropRows(rs, dropIrrelevant, keepRetweets) <==>
        && (dropIrrelevant ==>
              && rs[i].company != ""
              && (StartsWith(chunk[i].lang, "en") || StartsWith(LanguageOf(S, chunk[i].lang, chunk[i].fullText), "en")))
        && (!keepRetweets ==> !StartsWith(chunk[i].fullText, S.retweetStart))
  {
    var rs := ChunkRecords(S, chunk).value;
    DropRowsKeeps(rs, dropIrrelevant, keepRetweets);
  }

  /** One `to_csv` append: whether the header line is written, and the rows. */
  datatype CsvWrite = CsvWrite(header: bool, rows: seq<Record>)

  /** The rows appended by a sequence of writes. */
  function RowsWritten(ws: seq<CsvWrite>): nat {
    if ws == [] then 0 else RowsWritten(ws[..|ws| - 1]) + |ws[|ws| - 1].rows|
  }

  /** The appends `create_dataset` makes for a run of chunks, or the failure that stops it. */
  function Appends(S: Settings, chunks: seq<seq<RawTweet>>, dropIrrelevant: bool, keepRetweets: bool): Result<seq<CsvWrite>>
    decreases |chunks|
  {
    if chunks == [] then Ok([])
    else
      var before := Appends(S, chunks[..|chunks| - 1], dropIrrelevant, keepRetweets);
      var last := ChunkRecords(S, chunks[|chunks| - 1]);
      if before.Err? then before
      else if last.Err? then Err(last.error)
      else Ok(before.value + [CsvWrite(before.value == [], DropRows(last.value, dropIrrelevant, keepRetweets))])
  }

  /**
   * The appends of a successful run: one per chunk, in order, the header on
   * the first only, each holding its chunk's records after the drop steps.
   */
  lemma {:induction false} AppendsShape(S: Settings, chunks: seq<seq<RawTweet>>, dropIrrelevant: bool, keepRetweets: bool)
    requires Appends(S, chunks, dropIrrelevant, keepRetweets).Ok?
    ensures var ws := Appends(S, chunks, dropIrrelevant, keepRetweets).value;
      |ws| == |chunks|
      && forall k :: 0 <= k < |chunks| ==>
        ChunkRecords(S, chunks[k]).Ok?
        && ws[k] == CsvWrite(k == 0, DropRows(ChunkRecords(S, chunks[k]).value, dropIrrelevant, keepRetweets))
  {
    if chunks != [] {
      var init := chunks[..|chunks| - 1];
      AppendsShape(S, init, dropIrrelevant, keepRetweets);
      var before := Appends(S, init, dropIrrelevant, keepRetweets);
      var last := ChunkRecords(S, chunks[|chunks| - 1]);
      assert before.Ok? && last.Ok?;
      var ws := Appends(S, chunks, dropIrrelevant, keepRetweets).value;
      assert ws == before.value + [CsvWrite(before.value == [], DropRows(last.value, dropIrrelevant, keepRetweets))];
      forall k | 0 <= k < |chunks|
        ensures ChunkRecords(S, chunks[k]).Ok?
        ensures ws[k] == CsvWrite(k == 0, DropRows(ChunkRecords(S, chunks[k]).value, dropIrrelevant, keepRetweets))
      {
        if k < |init| {
          assert chunks[k] == init[k];
          assert ws[k] == before.value[k];
        } else {
          assert chunks[k] == chunks[|chunks| - 1];
          assert ws[k] == CsvWrite(before.value == [], DropRows(last.value, dropIrrelevant, keepRetweets));
        }
      }
    }
  }

  /** The appends of the first `c` chunks have been made, and `count` sums their rows. */
  ghost predicate WrittenSoFar(S: Settings, chunks: seq<seq<RawTweet>>, c: nat, written: seq<CsvWrite>, count: nat,
    dropIrrelevant: bool, keepRetweets: bool)
  {
    c <= |chunks| && Appends(S, chunks[..c], dropIrrelevant, keepRetweets) == Ok(written) && count == RowsWritten(written)
  }

  /** A chunk whose records are computed adds one append after those of the chunks before it. */
  lemma AppendsStep(S: Settings, chunks: seq<seq<RawTweet>>, c: nat, written: seq<CsvWrite>, count: nat, rows: seq<Record>,
    dropIrrelevant: bool, keepRetweets: bool)
    requires c < |chunks| && WrittenSoFar(S, chunks, c, written, count, dropIrrelevant, keepRetweets)
    requires ChunkRecords(S, chunks[c]).Ok? && rows == DropRows(ChunkRecords(S, chunks[c]).value, dropIrrelevant, keepRetweets)
    ensures WrittenSoFar(S, chunks, c + 1, written + [CsvWrite(written == [], rows)], count + |rows|, dropIrrelevant, keepRetweets)
  {
    assert chunks[..c + 1][..c] == chunks[..c];
    var w := written + [CsvWrite(written == [], rows)];
    assert w[..|w| - 1] == written;
  }

  /** What one chunk adds to the two tallies: its non-English and unknown-company records, or nothing when it fails. */
  function ChunkTallies(S: Settings, chunk: seq<RawTweet>): (nat, nat) {
    match ChunkRecords(S, chunk)
    case Ok(rs) => (NonEnglish(rs), Unknown(S, rs))
    case Err(_) => (0, 0)
  }

  /**
   * The non-English and unknown-company records of a run of chunks, summed
   * over the chunks whose records are computed: what the two global tallies
   * gain, and what the end-of-run report prints.
   */
  function RunTallies(S: Settings, chunks: seq<seq<RawTweet>>): (nat, nat)
    decreases |chunks|
  {
    if chunks == [] then (0, 0)
    else
      var before := RunTallies(S, chunks[..|chunks| - 1]);
      var last := ChunkTallies(S, chunks[|chunks| - 1]);
      (before.0 + last.0, before.1 + last.1)
  }

  /** The tallies of a run with one more chunk: those of the run before it plus that chunk's. */
  lemma RunTalliesSnoc(S: Settings, before: seq<seq<RawTweet>>, chunk: seq<RawTweet>)
    ensures RunTallies(S, before + [chunk]).0 == RunTallies(S, before).0 + ChunkTallies(S, chunk).0
    ensures RunTallies(S, before + [chunk]).1 == RunTallies(S, before).1 + ChunkTallies(S, chunk).1
  {
    var p := before + [chunk];
    assert p[..|p| - 1] == before && p[|p| - 1] == chunk;
    var b, last := RunTallies(S, before), ChunkTallies(S, chunk);
    assert RunTallies(S, p) == (b.0 + last.0, b.1 + last.1);
  }

  /** The tallies, from their values at the start, after the first `c` chunks. */
  ghost predicate TalliedSoFar(S: Settings, chunks: seq<seq<RawTweet>>, c: nat, nonEnglish0: nat, unknown0: nat,
    nonEnglish: nat, unknown: nat)
  {
    c <= |chunks|
    && nonEnglish == nonEnglish0 + RunTallies(S, chunks[..c]).0
    && unknown == unknown0 + RunTallies(S, chunks[..c]).1
  }

  /** A chunk whose records are computed adds its counts to the tallies of the chunks before it. */
  lemma TalliedStep(S: Settings, chunks: seq<seq<RawTweet>>, c: nat, nonEnglish0: nat, unknown0: nat,
    nonEnglish: nat, unknown: nat, rs: seq<Record>)
    requires c < |chunks| && TalliedSoFar(S, chunks, c, nonEnglish0, unknown0, nonEnglish, unknown)
    requires ChunkRecords(S, chunks[c]) == Ok(rs)
    ensures TalliedSoFar(S, chunks, c + 1, nonEnglish0, unknown0, nonEnglish + NonEnglish(rs), unknown + Unknown(S, rs))
  {
    RunTalliesSnoc(S, chunks[..c], chunks[c]);
    assert chunks[..c + 1] == chunks[..c] + [chunks[c]];
  }

  /**
   * The drop steps of lines 59-70 on one chunk's records: irrelevant tweets,
   * then retweets. They keep exactly the records that `Keep` accepts, in order.
   */
  method DropSteps(records: seq<Record>, dropIrrelevant: bool, keepRetweets: bool) returns (rows: seq<Record>)
    ensures rows == DropRows(records, dropIrrelevant, keepRetweets)
    ensures forall r :: r in rows <==> r in records && Keep(r, dropIrrelevant, keepRetweets)
  {
    rows := records;
    if dropIrrelevant {
      rows := Where(rows, Relevant);
    }
    if !keepRetweets {
      rows := Where(rows, NotRetweet);
    }
    DropRowsKeeps(records, dropIrrelevant, keepRetweets);
  }

  /**
   * The chunk loop of `create_dataset`: each chunk is processed, filtered and
   * appended, with the header only on the first append; `count` sums the
   * appended rows. A chunk whose full-text column fails stops the run after
   * the appends of the chunks before it.
   */
  method CreateDataset(S: Settings, tallies: Tallies, chunks: seq<seq<RawTweet>>, dropIrrelevant: bool, keepRetweets: bool)
    returns (written: seq<CsvWrite>, count: nat, failure: Option<PyError>)
    modifies tallies
    ensures failure.None? ==> Appends(S, chunks, dropIrrelevant, keepRetweets) == Ok(written)
    ensures failure.Some? ==>
      |written| < |chunks|
      && Appends(S, chunks[..|written|], dropIrrelevant, keepRetweets) == Ok(written)
      && ChunkRecords(S, chunks[|written|]).Err?
      && failure == Some(AttributeError)
    ensures failure.None? ==> |written| == |chunks|
    ensures count == RowsWritten(written)
    ensures |written| <= |chunks|
    ensures tallies.nonEnglish == old(tallies.nonEnglish) + RunTallies(S, chunks[..|written|]).0
    ensures tallies.unknownCompany == old(tallies.unknownCompany) + RunTallies(S, chunks[..|written|]).1
  {
    written, count, failure := [], 0, None;
    var includeHeader := true;
    for c := 0 to |chunks|
      invariant |written| == c
      invariant includeHeader <==> c == 0
      invariant WrittenSoFar(S, chunks, c, written, count, dropIrrelevant, keepRetweets)
      invariant TalliedSoFar(S, chunks, c, old(tallies.nonEnglish), old(tallies.unknownCompany), tallies.nonEnglish, tallies.unknownCompany)
    {
      ghost var nonEnglish, unknown := tallies.nonEnglish, tallies.unknownCompany;
      var processed := ProcessChunk(S, tallies, chunks[c]);
      if processed.Err? {
        return written, count, Some(processed.error);
      }
      TalliedStep(S, chunks, c, old(tallies.nonEnglish), old(tallies.unknownCompany), nonEnglish, unknown, processed.value);
      var rows := DropSteps(processed.value, dropIrrelevant, keepRetweets);
      AppendsStep(S, chunks, c, written, count, rows, dropIrrelevant, keepRetweets);
      written := written + [CsvWrite(includeHeader, rows)];
      count := count + |rows|;
      includeHeader := false;
    }
    assert chunks[..|chunks|] == chunks;
  }
}
