/**
 * The record codec and label handling of `src/model_utilities.py`: `get_x`
 * packs a row's company, tweet and (optionally) profile into one tab-joined
 * string, `split_x_value` unpacks it, and `load_dataset` pairs every encoded
 * row with the index of its stance label.
 */
module ModelUtilities {
  import opened Wrappers
  import opened Text
  import opened Regex

  /** A CSV row as `csv.DictReader` yields it: column name to cell text. */
  type Row = map<string, string>

  /**
   * The auto-coding hashtag patterns of `src/settings.py` (not part of this
   * model), per company: `PTN_for` and `PTN_against`.
   */
  datatype Hashtags = Hashtags(forTags: map<string, Matcher>, againstTags: map<string, Matcher>)

  /** `row[key]`: a missing key raises `KeyError`. */
  function Get(row: Row, key: string): (r: Result<string>)
    ensures key in row <==> r.Ok?
    ensures key in row ==> r.value == row[key]
    ensures key !in row ==> r == Err(KeyError(key))
  {
    if key in row then Ok(row[key]) else Err(KeyError(key))
  }

  /** The fields `get_x` packs, in packing order. */
  function Fields(company: string, tweet: string, profileText: string, profile: bool): seq<string> {
    if profile then [company, tweet, profileText] else [company, tweet]
  }

  /**
   * What `get_x` returns: the fields looked up in order (a missing column
   * raises `KeyError`), joined by single tabs, and, for auto-coded data, with
   * the company's for and against hashtags removed.
   */
  function EncodeX(row: Row, autoTagged: bool, profile: bool, H: Hashtags): Result<string> {
    if "company" !in row then Err(KeyError("company"))
    else if "tweet_norm" !in row then Err(KeyError("tweet_norm"))
    else if profile && "profile_norm" !in row then Err(KeyError("profile_norm"))
    else
      var profileText := if profile then row["profile_norm"] else "";
      var output := Join("\t", Fields(row["company"], row["tweet_norm"], profileText, profile));
      if !autoTagged then Ok(output)
      else if row["company"] !in H.forTags then Err(KeyError(row["company"]))
      else
        var noFor := Sub(H.forTags[row["company"]], Constant(""), output, 0);
        if row["company"] !in H.againstTags then Err(KeyError(row["company"]))
        else Ok(Sub(H.againstTags[row["company"]], Constant(""), noFor, 0))
  }

  /** `get_x`: the feature list is built by appends, then joined and cleaned. */
  method GetX(row: Row, autoTagged: bool, profile: bool, H: Hashtags) returns (r: Result<string>)
    ensures r == EncodeX(row, autoTagged, profile, H)
  {
    var features: seq<string> := [];
    var company := Get(row, "company");
    if company.Err? {
      return Err(company.error);
    }
    features := features + [company.value];
    var tweet := Get(row, "tweet_norm");
    if tweet.Err? {
      return Err(tweet.error);
    }
    features := features + [tweet.value];
    if profile {
      var profileText := Get(row, "profile_norm");
      if profileText.Err? {
        return Err(profileText.error);
      }
      features := features + [profileText.value];
    }
    assert features == Fields(company.value, tweet.value, if profile then row["profile_norm"] else "", profile);
    var output := Join("\t", features);
    if autoTagged {
      if company.value !in H.forTags {
        return Err(KeyError(company.value));
      }
      output := Sub(H.forTags[company.value], Constant(""), output, 0);
      if company.value !in H.againstTags {
        return Err(KeyError(company.value));
      }
      output := Sub(H.againstTags[company.value], Constant(""), output, 0);
    }
    return Ok(output);
  }

  /** Plain (not auto-coded) encoding is the company, the tweet and, with profile, the profile, tab-joined in that order. */
  lemma EncodeXPlain(row: Row, profile: bool, H: Hashtags)
    requires "company" in row && "tweet_norm" in row && (profile ==> "profile_norm" in row)
    ensures !profile ==> EncodeX(row, false, profile, H) == Ok(row["company"] + "\t" + row["tweet_norm"])
    ensures profile ==>
      EncodeX(row, false, profile, H) == Ok(row["company"] + "\t" + row["tweet_norm"] + "\t" + row["profile_norm"])
  {
    var c, t := row["company"], row["tweet_norm"];
    if profile {
      var p := row["profile_norm"];
      var fs := [c, t, p];
      assert Fields(c, t, p, true) == fs;
      assert fs[1..] == [t, p];
      assert fs[1..][1..] == [p];
      assert Join("\t", [t, p]) == t + "\t" + p;
      assert Join("\t", fs) == c + "\t" + (t + "\t" + p);
      assert c + "\t" + (t + "\t" + p) == c + "\t" + t + "\t" + p;
      assert EncodeX(row, false, profile, H) == Ok(Join("\t", fs));
    } else {
      var fs := [c, t];
      assert Fields(c, t, "", false) == fs;
      assert fs[1..] == [t];
      assert Join("\t", fs) == c + "\t" + t;
      assert EncodeX(row, false, profile, H) == Ok(Join("\t", fs));
    }
  }

  /** The three strings `split_x_value` returns: target, tweet, profile. */
  datatype XValue = XValue(target: string, tweet: string, profile: string)

  /**
   * `split_x_value`: split on tabs and unpack into three fields (with
   * profile) or two (without, the profile then being `''`); any other number
   * of fields makes the tuple unpacking raise `ValueError`.
   */
  function SplitXValue(x: string, profileFlag: bool): (r: Result<XValue>)
    ensures r.Ok? <==> |Split(x, '\t')| == (if profileFlag then 3 else 2)
    ensures r.Ok? && !profileFlag ==> r.value.profile == ""
    ensures r.Ok? ==> '\t' !in r.value.target && '\t' !in r.value.tweet && '\t' !in r.value.profile
  {
    var fields := Split(x, '\t');
    if profileFlag then
      if |fields| == 3 then Ok(XValue(fields[0], fields[1], fields[2]))
      else Err(ValueError("wrong number of values to unpack"))
    else
      if |fields| == 2 then Ok(XValue(fields[0], fields[1], ""))
      else Err(ValueError("wrong number of values to unpack"))
  }

  /**
   * The codec round trip: a row encoded without auto-coding, none of whose
   * packed fields holds a tab, decodes with the same profile flag to its
   * company, tweet and (with profile) profile, and to `''` as profile without.
   */
  lemma SplitGetXRoundTrip(row: Row, profile: bool, H: Hashtags)
    requires "company" in row && "tweet_norm" in row && (profile ==> "profile_norm" in row)
    requires '\t' !in row["company"] && '\t' !in row["tweet_norm"]
    requires profile ==> '\t' !in row["profile_norm"]
    ensures EncodeX(row, false, profile, H).Ok?
    ensures SplitXValue(EncodeX(row, false, profile, H).value, profile)
      == Ok(XValue(row["company"], row["tweet_norm"], if profile then row["profile_norm"] else ""))
  {
    var profileText := if profile then row["profile_norm"] else "";
    var fs := Fields(row["company"], row["tweet_norm"], profileText, profile);
    SplitJoin(fs, '\t');
    assert [('\t' as char)] == "\t";
  }

  /** Decoding with the wrong profile flag fails: the field count gives it away. */
  lemma SplitXValueWrongFlag(row: Row, profile: bool, H: Hashtags)
    requires "company" in row && "tweet_norm" in row && (profile ==> "profile_norm" in row)
    requires '\t' !in row["company"] && '\t' !in row["tweet_norm"]
    requires profile ==> '\t' !in row["profile_norm"]
    ensures SplitXValue(EncodeX(row, false, profile, H).value, !profile).Err?
  {
    var profileText := if profile then row["profile_norm"] else "";
    var fs := Fields(row["company"], row["tweet_norm"], profileText, profile);
    SplitJoin(fs, '\t');
    assert [('\t' as char)] == "\t";
  }

  // ---------------------------------------------------------------------------
  // Labels
  // ---------------------------------------------------------------------------

  /** `labels[k]` with Python's negative indexing; out of range raises `IndexError`. */
  function PyIndex<T>(xs: seq<T>, k: int): (r: Result<T>)
    ensures r.Ok? <==> -|xs| <= k < |xs|
    ensures 0 <= k < |xs| ==> r == Ok(xs[k])
    ensures -|xs| <= k < 0 ==> r == Ok(xs[|xs| + k])
  {
    if 0 <= k < |xs| then Ok(xs[k])
    else if -|xs| <= k < 0 then Ok(xs[|xs| + k])
    else Err(IndexError)
  }

  /** `translate_predicted`: each predicted code is looked up in `labels`. */
  function TranslatePredicted(predicted: seq<int>, labels: seq<string>): (r: Result<seq<string>>)
    ensures r.Ok? <==> forall i :: 0 <= i < |predicted| ==> PyIndex(labels, predicted[i]).Ok?
    ensures r.Ok? ==>
      && |r.value| == |predicted|
      && forall i :: 0 <= i < |predicted| ==> Ok(r.value[i]) == PyIndex(labels, predicted[i])
  {
    if predicted == [] then Ok([])
    else
      var head := PyIndex(labels, predicted[0]);
      var rest := TranslatePredicted(predicted[1..], labels);
      assert forall i :: 1 <= i < |predicted| ==> predicted[i] == predicted[1..][i - 1];
      if head.Err? then Err(head.error)
      else if rest.Err? then Err(rest.error)
      else Ok([head.value] + rest.value)
  }

  /** The default labels; `against` is 0 and `for` is 1, as the macro-F measure expects. */
  const DefaultLabels: seq<string> := ["against", "for", "neutral", "na"]

  /** `set_labels`: `None` selects the default labels, anything else is kept. */
  function SetLabels(labels: Option<seq<string>>): (r: seq<string>)
    ensures labels.None? ==> r == DefaultLabels
    ensures labels.Some? ==> r == labels.value
  {
    match labels
    case None => DefaultLabels
    case Some(given) => given
  }

  /** Translating the codes of the default labels gives the labels back. */
  lemma TranslateDefaultLabels()
    ensures TranslatePredicted([0, 1, 2, 3], SetLabels(None)) == Ok(DefaultLabels)
  {
    var r := TranslatePredicted([0, 1, 2, 3], DefaultLabels);
    assert r.Ok?;
    assert r.value == DefaultLabels;
  }

  /** `labels.index(s)`: the first position of `s`, or `ValueError`. */
  function LabelIndex(labels: seq<string>, s: string): (r: Result<nat>)
    ensures r.Ok? <==> s in labels
    ensures r.Err? ==> r.error.ValueError?
    ensures r.Ok? ==>
      && r.value < |labels| && labels[r.value] == s
      && forall j :: 0 <= j < r.value ==> labels[j] != s
  {
    if labels == [] then Err(ValueError("not in list"))
    else if labels[0] == s then Ok(0)
    else
      var rest := LabelIndex(labels[1..], s);
      if rest.Err? then rest else Ok(rest.value + 1)
  }

  /**
   * One row of `load_dataset`: its encoding, then the first position of its
   * stripped stance among the labels. An encoding error comes first, then a
   * missing `stance` column (`KeyError`), then an unknown stance
   * (`ValueError`).
   */
  function LoadRow(row: Row, labels: seq<string>, autoTagged: bool, profile: bool, H: Hashtags): (r: Result<(string, nat)>)
    ensures EncodeX(row, autoTagged, profile, H).Err? ==> r == Err(EncodeX(row, autoTagged, profile, H).error)
    ensures EncodeX(row, autoTagged, profile, H).Ok? && "stance" !in row ==> r == Err(KeyError("stance"))
    ensures EncodeX(row, autoTagged, profile, H).Ok? && "stance" in row && Strip(row["stance"]) !in labels ==>
      r.Err? && r.error.ValueError?
    ensures r.Ok? ==>
      && EncodeX(row, autoTagged, profile, H) == Ok(r.value.0)
      && "stance" in row && r.value.1 < |labels| && labels[r.value.1] == Strip(row["stance"])
      && forall j :: 0 <= j < r.value.1 ==> labels[j] != Strip(row["stance"])
  {
    var x := EncodeX(row, autoTagged, profile, H);
    if x.Err? then Err(x.error)
    else if "stance" !in row then Err(KeyError("stance"))
    else
      var y := LabelIndex(labels, Strip(row["stance"]));
      if y.Err? then Err(y.error) else Ok((x.value, y.value))
  }

  /** The inputs and stance codes of `load_dataset`, or the error of its first failing row. */
  function LoadAll(rows: seq<Row>, labels: seq<string>, autoTagged: bool, profile: bool, H: Hashtags)
    : (r: Result<(seq<string>, seq<nat>)>)
    ensures r.Ok? <==> forall i :: 0 <= i < |rows| ==> LoadRow(rows[i], labels, autoTagged, profile, H).Ok?
    ensures r.Ok? ==> |r.value.0| == |rows| && |r.value.1| == |rows|
    ensures r.Ok? ==> forall i :: 0 <= i < |rows| ==>
      LoadRow(rows[i], labels, autoTagged, profile, H) == Ok((r.value.0[i], r.value.1[i]))
    decreases |rows|
  {
    if rows == [] then Ok(([], []))
    else
      var rest := LoadAll(rows[..|rows| - 1], labels, autoTagged, profile, H);
      var last := LoadRow(rows[|rows| - 1], labels, autoTagged, profile, H);
      if rest.Err? then rest
      else if last.Err? then Err(last.error)
      else
        assert forall i :: 0 <= i < |rows| - 1 ==> rows[i] == rows[..|rows| - 1][i];
        Ok((rest.value.0 + [last.value.0], rest.value.1 + [last.value.1]))
  }

  /**
   * `load_dataset` on the rows the CSV reader yields (reading the file is
   * I/O): a path containing `auto` marks auto-coded data; every row is
   * encoded and its stance looked up, and both are appended.
   */
  method LoadDataset(path: string, rows: seq<Row>, labels: seq<string>, profile: bool, H: Hashtags)
    returns (r: Result<(seq<string>, seq<nat>)>)
    ensures r == LoadAll(rows, labels, Contains(path, "auto"), profile, H)
  {
    var autoTagged := Contains(path, "auto");
    var xItems: seq<string> := [];
    var yItems: seq<nat> := [];
    for k := 0 to |rows|
      invariant LoadAll(rows[..k], labels, autoTagged, profile, H) == Ok((xItems, yItems))
    {
      var item := LoadOne(rows[k], labels, autoTagged, profile, H);
      if item.Err? {
        LoadAllFails(rows, k, labels, autoTagged, profile, H);
        return Err(item.error);
      }
      LoadAllStep(rows, k, labels, autoTagged, profile, H);
      xItems := xItems + [item.value.0];
      yItems := yItems + [item.value.1];
    }
    assert rows[..|rows|] == rows;
    return Ok((xItems, yItems));
  }

  /** The body of the loop of `load_dataset`: encode the row, read its stance, look the stance up. */
  method LoadOne(row: Row, labels: seq<string>, autoTagged: bool, profile: bool, H: Hashtags)
    returns (r: Result<(string, nat)>)
    ensures r == LoadRow(row, labels, autoTagged, profile, H)
  {
    var x := GetX(row, autoTagged, profile, H);
    if x.Err? {
      return Err(x.error);
    }
    var stance := Get(row, "stance");
    if stance.Err? {
      return Err(stance.error);
    }
    var y := LabelIndex(labels, Strip(stance.value));
    if y.Err? {
      return Err(y.error);
    }
    return Ok((x.value, y.value));
  }

  /** A row that loads extends the loaded prefix by its encoding and stance code. */
  lemma LoadAllStep(rows: seq<Row>, k: nat, labels: seq<string>, autoTagged: bool, profile: bool, H: Hashtags)
    requires k < |rows| && LoadAll(rows[..k], labels, autoTagged, profile, H).Ok?
    requires LoadRow(rows[k], labels, autoTagged, profile, H).Ok?
    ensures var prev, row := LoadAll(rows[..k], labels, autoTagged, profile, H).value,
                             LoadRow(rows[k], labels, autoTagged, profile, H).value;
      LoadAll(rows[..k + 1], labels, autoTagged, profile, H) == Ok((prev.0 + [row.0], prev.1 + [row.1]))
  {
    assert rows[..k + 1][..k] == rows[..k];
  }

  /** The first failing row decides the error of the whole load. */
  lemma {:induction false} LoadAllFails(rows: seq<Row>, k: nat, labels: seq<string>, autoTagged: bool, profile: bool, H: Hashtags)
    requires k < |rows| && LoadAll(rows[..k], labels, autoTagged, profile, H).Ok?
    requires LoadRow(rows[k], labels, autoTagged, profile, H).Err?
    ensures LoadAll(rows, labels, autoTagged, profile, H) == Err(LoadRow(rows[k], labels, autoTagged, profile, H).error)
    decreases |rows|
  {
    var init := rows[..|rows| - 1];
    if k + 1 < |rows| {
      assert init[..k] == rows[..k];
      assert init[k] == rows[k];
      LoadAllFails(init, k, labels, autoTagged, profile, H);
    } else {
      assert init == rows[..k];
    }
  }
}
