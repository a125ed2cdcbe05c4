/** The `/api/summarize` route: validation, forwarding, and the local fallback summary. */
module SummarizeRoute {
  import opened Wrappers
  import Text
  import opened RouteCommon

  const ConciseText := "This text is already quite concise and doesn't need much summarization."
  const FallbackMessage := "This is a demo response. Connect your FastAPI backend for AI-powered summaries."
  const MissingText := "Text is required"
  const MinWords: nat := 50

  /** `text.split(/[.!?]+/).filter((s) => s.trim().length > 0)`. */
  function Sentences(text: string): (r: seq<string>)
    ensures forall k :: 0 <= k < |r| ==> Text.IsNonBlank(r[k])
    ensures forall k, j :: 0 <= k < |r| && 0 <= j < |r[k]| ==> !Text.IsTerminator(r[k][j])
  {
    var pieces := Text.SplitRuns(text, Text.IsTerminator);
    var r := Text.NonBlank(pieces);
    assert forall k :: 0 <= k < |r| ==> r[k] in pieces by {
      forall k | 0 <= k < |r| ensures r[k] in pieces {
        assert r[k] in r;
      }
    }
    r
  }

  /** `text.split(/\s+/).length`. */
  function WordCount(text: string): (n: nat)
    ensures n >= 1
  {
    |Text.SplitRuns(text, Text.IsJsSpace)|
  }

  /** The word count is one more than the number of whitespace runs, leading ones included. */
  lemma WordCountIsRuns(text: string)
    ensures WordCount(text) == 1 + Text.RunCount(text, Text.IsJsSpace, false)
  {
    Text.SplitRunsCount(text, Text.IsJsSpace);
  }

  /**
   * Which sentence positions the summary keeps, given `n` sentences: the first, the
   * middle one when there are at least three, and the last when there are at least two.
   */
  function Picks(n: nat): seq<nat> {
    (if n > 0 then [0] else []) + (if n > 2 then [n / 2] else []) + (if n > 1 then [n - 1] else [])
  }

  /** The kept positions: in range, strictly increasing, first and last included, at most three. */
  lemma PicksSpec(n: nat)
    ensures |Picks(n)| == if n < 3 then n else 3
    ensures forall k :: 0 <= k < |Picks(n)| ==> Picks(n)[k] < n
    ensures forall k, j :: 0 <= k < j < |Picks(n)| ==> Picks(n)[k] < Picks(n)[j]
    ensures n > 0 ==> Picks(n)[0] == 0 && Picks(n)[|Picks(n)| - 1] == n - 1
    ensures n >= 3 ==> Picks(n) == [0, n / 2, n - 1]
  {
  }

  /** The kept sentences, trimmed. */
  function Picked(sentences: seq<string>): (r: seq<string>)
    ensures |r| == |Picks(|sentences|)|
    ensures forall k :: 0 <= k < |r| ==> r[k] == Text.Trim(sentences[Picks(|sentences|)[k]])
  {
    PicksSpec(|sentences|);
    var ps := Picks(|sentences|);
    seq(|ps|, k requires 0 <= k < |ps| => Text.Trim(sentences[ps[k]]))
  }

  /** `generateFallbackSummary`. */
  function FallbackSummary(text: string): string {
    if WordCount(text) < MinWords then ConciseText
    else Text.Join(Picked(Sentences(text)), ". ") + "."
  }

  /** The summary of a list of sentences, by its length. */
  lemma SummaryOfCases(s: seq<string>)
    ensures |s| == 0 ==> Text.Join(Picked(s), ". ") + "." == "."
    ensures |s| == 1 ==> Text.Join(Picked(s), ". ") + "." == Text.Trim(s[0]) + "."
    ensures |s| == 2 ==> Text.Join(Picked(s), ". ") + "." == Text.Trim(s[0]) + ". " + Text.Trim(s[1]) + "."
    ensures |s| >= 3 ==> Text.Join(Picked(s), ". ") + "."
                         == Text.Trim(s[0]) + ". " + Text.Trim(s[|s| / 2]) + ". " + Text.Trim(s[|s| - 1]) + "."
  {
    PicksSpec(|s|);
    Text.JoinSmall(Picked(s), ". ");
  }

  /** The summary by number of sentences, for a text of at least fifty words. */
  lemma FallbackSummaryCases(text: string)
    requires WordCount(text) >= MinWords
    ensures var s := Sentences(text);
            && (|s| == 0 ==> FallbackSummary(text) == ".")
            && (|s| == 1 ==> FallbackSummary(text) == Text.Trim(s[0]) + ".")
            && (|s| == 2 ==> FallbackSummary(text) == Text.Trim(s[0]) + ". " + Text.Trim(s[1]) + ".")
            && (|s| >= 3 ==> FallbackSummary(text) == Text.Trim(s[0]) + ". " + Text.Trim(s[|s| / 2]) + ". "
                                                      + Text.Trim(s[|s| - 1]) + ".")
  {
    SummaryOfCases(Sentences(text));
  }

  /** Short texts always get the fixed message, whatever their sentences. */
  lemma ShortTextIsConcise(text: string)
    requires WordCount(text) < MinWords
    ensures FallbackSummary(text) == ConciseText
  {
  }

  /**
   * The `POST` handler. `request` is None when the body is not JSON or is `null`; any
   * other body that is not an object has every field `Missing`. `backend` is the
   * backend's data when its call succeeds and None when it fails.
   */
  function Post<D>(request: Option<Field>, backend: Option<D>): Response<D> {
    if request.None? then BadBody()
    else if !IsGiven(request.value) then Failure(400, MissingText)
    else if backend.Some? then Forwarded(backend.value)
    else Fallback(FallbackSummary(request.value.s), FallbackSource, FallbackMessage)
  }

  /** Every outcome of the handler and the conditions that lead to it. */
  lemma PostSpec<D>(request: Option<Field>, backend: Option<D>)
    ensures Post(request, backend).Failure? && Post(request, backend).status == 400
            <==> request.Some? && !IsGiven(request.value)
    ensures Post(request, backend).Failure? && Post(request, backend).status == 500 <==> request.None?
    ensures Post(request, backend).Forwarded?
            <==> request.Some? && IsGiven(request.value) && backend.Some?
    ensures Post(request, backend).Forwarded? ==> Post(request, backend).data == backend.value
    ensures Post(request, backend).Fallback?
            <==> request.Some? && IsGiven(request.value) && backend.None?
    ensures Post(request, backend).Fallback? ==>
              Post(request, backend) == Fallback(FallbackSummary(request.value.s), "fallback", FallbackMessage)
  {
  }

  /** A rejected request is rejected the same way whatever the backend would do. */
  lemma RejectionIgnoresBackend<D>(f: Field, b1: Option<D>, b2: Option<D>)
    requires !IsGiven(f)
    ensures Post(Some(f), b1) == Post(Some(f), b2) == Failure(400, "Text is required")
  {
  }
}
