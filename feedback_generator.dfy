/** The rule-based analysis of `analyze_feedback`: keyword sentiment counts over
    the engineers' comments, topic frequencies over the comma-separated topics,
    tallies of the two kinds of improvement suggestion, and the most frequent
    program liking. The saved bundle is read as a JSON object whose missing
    keys stand for empty lists. */
module FeedbackGenerator {
  import opened Strings
  import opened Sequences
  import opened Counter
  import ExtractReviews

  /** `analyze_sentiment`'s result. */
  datatype Sentiment = Sentiment(positive: int, negative: int, neutral: int)

  /** `extract_improvements`' result. */
  datatype ImprovementSummary = ImprovementSummary(mostCommon: Tally, totalSuggestions: int)

  /** `analysis_results`. */
  datatype Analysis = Analysis(
    sentimentAnalysis: Sentiment,
    topicFrequencies: Tally,
    mostLikedAspect: string,
    programImprovements: ImprovementSummary,
    engineerImprovements: ImprovementSummary)

  const NotAvailable := "N/A"

  /** The comment's lower-cased text contains one of the two keywords. */
  predicate Mentions(feedback: string, w1: string, w2: string) {
    Contains(Lower(feedback), w1) || Contains(Lower(feedback), w2)
  }

  predicate IsPositive(feedback: string) {
    Mentions(feedback, "good", "excellent")
  }

  predicate IsNegative(feedback: string) {
    Mentions(feedback, "bad", "poor")
  }

  /** The generator sum in `analyze_sentiment`: one for each comment whose
      lower-cased text holds either keyword. */
  function CountMentions(xs: seq<string>, w1: string, w2: string): (n: nat)
    ensures n <= |xs|
  {
    if xs == [] then 0
    else CountMentions(xs[..|xs| - 1], w1, w2) + (if Mentions(xs[|xs| - 1], w1, w2) then 1 else 0)
  }

  /** The count is the number of positions whose comment mentions a keyword. */
  lemma {:induction false} CountMentionsIndices(xs: seq<string>, w1: string, w2: string)
    ensures CountMentions(xs, w1, w2) == |set i | 0 <= i < |xs| && Mentions(xs[i], w1, w2)|
  {
    if xs != [] {
      var ys := xs[..|xs| - 1];
      CountMentionsIndices(ys, w1, w2);
      var before := set i | 0 <= i < |ys| && Mentions(ys[i], w1, w2);
      var after := set i | 0 <= i < |xs| && Mentions(xs[i], w1, w2);
      if Mentions(xs[|xs| - 1], w1, w2) {
        assert after == before + {|ys|};
      } else {
        assert after == before;
      }
    }
  }

  /** `analyze_sentiment`: a comment is positive when its lower-cased text
      contains "good" or "excellent", negative when it contains "bad" or
      "poor"; it may be both, and neutral is what remains of the length. */
  function AnalyzeSentiment(feedbackList: seq<string>): (s: Sentiment)
    ensures s.positive + s.negative + s.neutral == |feedbackList|
    ensures 0 <= s.positive <= |feedbackList| && 0 <= s.negative <= |feedbackList|
    ensures s.positive == |set i | 0 <= i < |feedbackList| && IsPositive(feedbackList[i])|
    ensures s.negative == |set i | 0 <= i < |feedbackList| && IsNegative(feedbackList[i])|
  {
    var positive := CountMentions(feedbackList, "good", "excellent");
    var negative := CountMentions(feedbackList, "bad", "poor");
    CountMentionsIndices(feedbackList, "good", "excellent");
    CountMentionsIndices(feedbackList, "bad", "poor");
    assert (set i | 0 <= i < |feedbackList| && IsPositive(feedbackList[i]))
      == (set i | 0 <= i < |feedbackList| && Mentions(feedbackList[i], "good", "excellent"));
    assert (set i | 0 <= i < |feedbackList| && IsNegative(feedbackList[i]))
      == (set i | 0 <= i < |feedbackList| && Mentions(feedbackList[i], "bad", "poor"));
    Sentiment(positive, negative, |feedbackList| - positive - negative)
  }

  /** A comment with both kinds of keyword counts twice, so neutral can go
      below zero. */
  lemma NeutralCanBeNegative()
    ensures AnalyzeSentiment(["good bad"]).neutral == -1
  {
    var s := "good bad";
    assert IsLower(s);
    LowerOfLower(s);
    assert StartsWith(s, "good");
    assert OccursAt(s, "bad", 5);
    ContainsIff(s, "bad");
    assert IsPositive(s) && IsNegative(s);
    var l := ["good bad"];
    assert (set i | 0 <= i < |l| && IsPositive(l[i])) == {0};
    assert (set i | 0 <= i < |l| && IsNegative(l[i])) == {0};
  }

  /** Lower-cases every piece. */
  function LowerAll(pieces: seq<string>): (r: seq<string>)
    ensures |r| == |pieces|
    ensures forall i :: 0 <= i < |pieces| ==> r[i] == Lower(pieces[i])
  {
    if pieces == [] then [] else [Lower(pieces[0])] + LowerAll(pieces[1..])
  }

  /** Each entry contributes one piece more than it has commas. */
  function PieceCount(topics: seq<string>): nat {
    if topics == [] then 0 else multiset(topics[0])[','] + 1 + PieceCount(topics[1..])
  }

  /** The flattened topic list of `count_topics`: every entry split at each
      comma, and every piece lower-cased. There are PieceCount pieces, and
      each is lower-case and free of commas. */
  function TopicPieces(topics: seq<string>): (pieces: seq<string>)
    ensures |pieces| == PieceCount(topics)
    ensures forall p :: p in pieces ==> IsLower(p) && ',' !in p
  {
    if topics == [] then []
    else
      SplitCount(topics[0], ',');
      SplitPiecesFree(topics[0], ',');
      var head := LowerAll(Split(topics[0], ','));
      assert forall p :: p in head ==> IsLower(p) && ',' !in p by {
        forall p | p in head ensures IsLower(p) && ',' !in p {
          var i :| 0 <= i < |head| && head[i] == p;
          var piece := Split(topics[0], ',')[i];
          assert ',' !in piece;
          assert forall k :: 0 <= k < |p| ==> p[k] == LowerChar(piece[k]);
        }
      }
      head + TopicPieces(topics[1..])
  }

  /** `count_topics`: the exact frequency of every topic piece, keys in
      first-seen order. */
  function CountTopics(topics: seq<string>): (freq: Tally)
    ensures IsTallyOf(freq, TopicPieces(topics))
    ensures forall k :: k in freq.counts ==> IsLower(k) && ',' !in k
    ensures Total(freq) == PieceCount(topics)
  {
    TotalIsLength(TopicPieces(topics));
    Count(TopicPieces(topics))
  }

  /** `extract_improvements`. */
  function ExtractImprovements(improvementList: seq<string>): (s: ImprovementSummary)
    ensures s.totalSuggestions == |improvementList|
    ensures Total(s.mostCommon) == |improvementList|
    ensures forall k :: k in s.mostCommon.counts <==> k in improvementList
    ensures forall k :: k in s.mostCommon.counts ==> s.mostCommon.counts[k] == multiset(improvementList)[k]
    ensures IsTallyOf(s.mostCommon, improvementList)
  {
    TotalIsLength(improvementList);
    ImprovementSummary(Count(improvementList), |improvementList|)
  }

  /** `most_liked_aspect`: "N/A" for no likings; otherwise a liking that occurs
      at least as often as every other, and among the most frequent the one
      seen first. */
  function MostLikedAspect(likings: seq<string>): (aspect: string)
    ensures likings == [] ==> aspect == NotAvailable
    ensures likings != [] ==> aspect in likings
    ensures likings != [] ==> forall y :: y in likings ==> multiset(likings)[y] <= multiset(likings)[aspect]
    ensures likings != [] ==> forall y :: y in likings && multiset(likings)[y] == multiset(likings)[aspect] ==>
      FirstIndex(likings, aspect) <= FirstIndex(likings, y)
  {
    var t := Count(likings);
    assert |t.keys| == 0 <==> likings == [] by {
      if likings != [] { assert likings[0] in t.keys; }
    }
    if |t.keys| == 0 then NotAvailable
    else
      MostLikedProperties(likings);
      t.keys[MaxIndex(t.keys, t.counts)]
  }

  /** The key that `max` picks among the likings' tally is a liking of maximal
      count, seen no later than any liking tied with it. */
  lemma MostLikedProperties(likings: seq<string>)
    requires likings != []
    ensures |Count(likings).keys| > 0
    ensures var t := Count(likings); var best := t.keys[MaxIndex(t.keys, t.counts)];
      && best in likings
      && (forall y :: y in likings ==> multiset(likings)[y] <= multiset(likings)[best])
      && (forall y :: y in likings && multiset(likings)[y] == multiset(likings)[best] ==>
            FirstIndex(likings, best) <= FirstIndex(likings, y))
  {
    var t := Count(likings);
    assert likings[0] in t.keys;
    MaxKeyProperties(likings, t, MaxIndex(t.keys, t.counts));
  }

  lemma MaxKeyProperties(likings: seq<string>, t: Tally, i: nat)
    requires IsTallyOf(t, likings) && i < |t.keys|
    requires forall j :: 0 <= j < |t.keys| ==> Get(t.counts, t.keys[j]) <= Get(t.counts, t.keys[i])
    requires forall j :: 0 <= j < i ==> Get(t.counts, t.keys[j]) < Get(t.counts, t.keys[i])
    ensures t.keys[i] in likings
    ensures forall y :: y in likings ==> multiset(likings)[y] <= multiset(likings)[t.keys[i]]
    ensures forall y :: y in likings && multiset(likings)[y] == multiset(likings)[t.keys[i]] ==>
      FirstIndex(likings, t.keys[i]) <= FirstIndex(likings, y)
  {
    var best := t.keys[i];
    forall y | y in likings
      ensures multiset(likings)[y] <= multiset(likings)[best]
      ensures multiset(likings)[y] == multiset(likings)[best] ==> FirstIndex(likings, best) <= FirstIndex(likings, y)
    {
      assert y in t.keys && y in t.counts && best in t.counts;
      var j :| 0 <= j < |t.keys| && t.keys[j] == y;
      assert Get(t.counts, y) == multiset(likings)[y];
      assert Get(t.counts, best) == multiset(likings)[best];
      if j < i {
        assert Get(t.counts, y) < Get(t.counts, best);
      } else if i < j {
        assert FirstIndex(likings, t.keys[i]) < FirstIndex(likings, t.keys[j]);
      }
    }
  }

  /** "N/A" does not by itself mean there were no likings: a single liking
      spelled "N/A" yields the same answer. */
  lemma NotAvailableIsAmbiguous()
    ensures MostLikedAspect([NotAvailable]) == NotAvailable
  {
  }

  /** `data.get(key, [])`. */
  function GetList(data: map<string, seq<string>>, key: string): (l: seq<string>)
    ensures key !in data ==> l == []
    ensures key in data ==> l == data[key]
  {
    if key in data then data[key] else []
  }

  /** `analyze_feedback` on the loaded JSON object: total on any object, every
      missing list read as empty. */
  function AnalyzeFeedback(data: map<string, seq<string>>): (a: Analysis)
    ensures a.sentimentAnalysis.positive + a.sentimentAnalysis.negative + a.sentimentAnalysis.neutral
      == |GetList(data, ExtractReviews.EngineerFeedback)|
    ensures Total(a.topicFrequencies) == PieceCount(GetList(data, ExtractReviews.TopicsLearned))
    ensures (a.mostLikedAspect != NotAvailable) ==> ExtractReviews.ProgramLikings in data
    ensures a.programImprovements.totalSuggestions == |GetList(data, ExtractReviews.ProgramImprovements)|
    ensures a.engineerImprovements.totalSuggestions == |GetList(data, ExtractReviews.EngineerImprovements)|
  {
    Analysis(
      AnalyzeSentiment(GetList(data, ExtractReviews.EngineerFeedback)),
      CountTopics(GetList(data, ExtractReviews.TopicsLearned)),
      MostLikedAspect(GetList(data, ExtractReviews.ProgramLikings)),
      ExtractImprovements(GetList(data, ExtractReviews.ProgramImprovements)),
      ExtractImprovements(GetList(data, ExtractReviews.EngineerImprovements)))
  }

  /** With no data at all the analysis is all zeros, empty tallies and "N/A". */
  lemma AnalyzeEmpty()
    ensures AnalyzeFeedback(map[]) == Analysis(
      Sentiment(0, 0, 0), Tally([], map[]), NotAvailable,
      ImprovementSummary(Tally([], map[]), 0), ImprovementSummary(Tally([], map[]), 0))
  {
  }

  /** Analysing the saved bundle analyses its five lists. */
  lemma AnalyzeSavedBundle(b: ExtractReviews.Bundle)
    ensures AnalyzeFeedback(ExtractReviews.ToJson(b)) == Analysis(
      AnalyzeSentiment(b.engineerFeedback),
      CountTopics(b.topicsLearned),
      MostLikedAspect(b.programLikings),
      ExtractImprovements(b.programImprovements),
      ExtractImprovements(b.engineerImprovements))
  {
    var data := ExtractReviews.ToJson(b);
    assert GetList(data, ExtractReviews.EngineerFeedback) == b.engineerFeedback;
    assert GetList(data, ExtractReviews.ProgramLikings) == b.programLikings;
    assert GetList(data, ExtractReviews.TopicsLearned) == b.topicsLearned;
    assert GetList(data, ExtractReviews.ProgramImprovements) == b.programImprovements;
    assert GetList(data, ExtractReviews.EngineerImprovements) == b.engineerImprovements;
  }
}
