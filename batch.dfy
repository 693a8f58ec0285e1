/**
 * `process_batch`: one request per batch, one judgment per message. The
 * reply is split on the delimiter, blank pieces are dropped, each piece goes
 * through `parse_response`, and the list is cut or padded to the batch
 * length. A failed call, or any exception escaping the steps after it,
 * gives one all-empty judgment per message.
 */
module Batch {
  import opened Wrappers
  import opened Text
  import opened Json
  import opened Rubric
  import opened Parse
  import opened Prompt

  /** The completion call's outcome: the reply text, or a failure (an exception, or a reply without text). */
  datatype Reply = Failure | Success(text: string)

  /** The remote model call, `generate_content(contents=[payload]).text`. */
  type Completion = string -> Reply

  /** A per-fragment parser; the pipeline's is `parse_response` over a given JSON decoder. */
  type Parser = string -> Parsed

  /** `parse_response` with `json.loads` played by `decode`. */
  function ResponseParser(decode: Decoder): Parser {
    t => ParseSpec(t, decode)
  }

  /** Every judgment the parser returns has every criterion. */
  ghost predicate JudgesCompletely(parse: Parser) {
    forall t :: parse(t).Judged? ==> Complete(parse(t).value)
  }

  lemma ResponseParserJudgesCompletely(decode: Decoder)
    ensures JudgesCompletely(ResponseParser(decode))
  {
    forall t ensures ResponseParser(decode)(t).Judged? ==> Complete(ResponseParser(decode)(t).value) {
      var r := ParseSpec(t, decode);
    }
  }

  /** `[part.strip() for part in parts if part.strip()]` */
  function NonBlank(parts: seq<string>): (r: seq<string>)
    ensures |r| <= |parts|
    ensures forall k :: 0 <= k < |r| ==> Trimmed(r[k])
    ensures r == [] <==> forall k :: 0 <= k < |parts| ==> AllSpace(parts[k])
  {
    if parts == [] then []
    else
      var init := parts[..|parts| - 1];
      var last := Strip(parts[|parts| - 1]);
      assert forall k :: 0 <= k < |init| ==> init[k] == parts[k];
      assert last != [] ==> Trimmed(last);
      if last == [] then NonBlank(init) else NonBlank(init) + [last]
  }

  /** The indices of the pieces that are not blank after stripping: an independent count of the fragments. */
  function NonBlankIndices(parts: seq<string>): set<nat> {
    set k: nat | k < |parts| && !AllSpace(parts[k])
  }

  /** Extending the pieces by one adds its index exactly when it is not blank. */
  lemma NonBlankIndicesSnoc(parts: seq<string>)
    requires parts != []
    ensures var n := |parts| - 1;
      NonBlankIndices(parts) == NonBlankIndices(parts[..n]) + (if AllSpace(parts[n]) then {} else {n})
  {
    var n := |parts| - 1;
    var init := parts[..n];
    forall x | x in NonBlankIndices(parts) && x < n ensures x in NonBlankIndices(init) {
      assert init[x] == parts[x];
    }
    forall x | x in NonBlankIndices(init) ensures x in NonBlankIndices(parts) {
      assert init[x] == parts[x];
    }
  }

  /** Blank pieces are dropped before counting: one fragment per non-blank piece. */
  lemma {:induction false} NonBlankCount(parts: seq<string>)
    ensures |NonBlank(parts)| == |NonBlankIndices(parts)|
  {
    if parts != [] {
      NonBlankCount(parts[..|parts| - 1]);
      NonBlankIndicesSnoc(parts);
    }
  }

  lemma {:induction false} NonBlankAppend(a: seq<string>, b: seq<string>)
    ensures NonBlank(a + b) == NonBlank(a) + NonBlank(b)
    decreases |b|
  {
    if b == [] {
      assert a + b == a;
    } else {
      var n := |b| - 1;
      Snoc(a, b);
      NonBlankAppend(a, b[..n]);
      NonBlankSnoc(a + b[..n], b[n]);
      NonBlankSnoc(b[..n], b[n]);
    }
  }

  /** One more piece adds its stripped text when that is not blank. */
  lemma NonBlankSnoc(parts: seq<string>, x: string)
    ensures NonBlank(parts + [x]) == NonBlank(parts) + (if Strip(x) == [] then [] else [Strip(x)])
  {
    var p := parts + [x];
    assert p[..|p| - 1] == parts && p[|p| - 1] == x;
  }

  lemma Snoc<T>(a: seq<T>, b: seq<T>)
    requires b != []
    ensures var n := |b| - 1; a + b == (a + b[..n]) + [b[n]] && b == b[..n] + [b[n]]
  {
  }

  /** Pieces that are already stripped and non-blank pass through unchanged. */
  lemma {:induction false} NonBlankOfTrimmed(parts: seq<string>)
    requires forall k :: 0 <= k < |parts| ==> Trimmed(parts[k])
    ensures NonBlank(parts) == parts
  {
    if parts != [] {
      var n := |parts| - 1;
      NonBlankOfTrimmed(parts[..n]);
      StripTrimmed(parts[n]);
      assert parts[..n] + [parts[n]] == parts;
    }
  }

  /** The fragments of a reply: the non-blank pieces of `reply.split(delimiter)`, stripped. */
  function Fragments(reply: string, delimiter: string): seq<string>
    requires |delimiter| > 0
  {
    NonBlank(Split(reply, delimiter))
  }

  /** The parser applied to every fragment, in order. */
  function ParseEach(fragments: seq<string>, parse: Parser): seq<Parsed> {
    seq(|fragments|, k requires 0 <= k < |fragments| => parse(fragments[k]))
  }

  /**
   * The comprehension's list: the judgments in order, or `None` when one
   * fragment raises, since the exception leaves the comprehension.
   */
  function Collect(parsed: seq<Parsed>): (r: Option<seq<Value>>)
    ensures r.Some? <==> forall k :: 0 <= k < |parsed| ==> parsed[k].Judged?
    ensures r.Some? ==> |r.value| == |parsed|
    ensures r.Some? ==> forall k :: 0 <= k < |parsed| ==> r.value[k] == parsed[k].value
  {
    if parsed == [] then Some([])
    else
      var init := parsed[..|parsed| - 1];
      assert forall k :: 0 <= k < |init| ==> init[k] == parsed[k];
      match Collect(init)
      case None => None
      case Some(done) =>
        match parsed[|parsed| - 1]
        case Raises => None
        case Judged(v) => Some(done + [v])
  }

  /**
   * The count reconciliation: exactly `n` judgments; the first ones are the
   * parsed ones in their order, and any missing ones are all-empty.
   */
  function Reconcile(results: seq<Value>, n: nat): (r: seq<Value>)
    ensures |r| == n
    ensures |results| >= n ==> r == results[..n]
    ensures |results| <= n ==> r[..|results|] == results
    ensures forall k :: |results| <= k < n ==> r[k] == EmptyJudgment()
  {
    if |results| > n then results[..n]
    else if |results| < n then results + EmptyJudgments(n - |results|)
    else results
  }

  /**
   * The judgments of a batch of `n` messages, given the reply to its
   * payload: all-empty when the call failed, when `str.split` refuses the
   * empty delimiter or when a fragment raises; otherwise the parsed
   * fragments reconciled to `n`.
   */
  function Judgments(reply: Reply, n: nat, delimiter: string, parse: Parser): (r: seq<Value>)
    ensures |r| == n
    ensures reply.Failure? || delimiter == [] ==> r == EmptyJudgments(n)
    ensures JudgesCompletely(parse) ==> forall k :: 0 <= k < n ==> Complete(r[k])
  {
    match reply
    case Failure => EmptyJudgments(n)
    case Success(text) =>
      if delimiter == [] then EmptyJudgments(n)
      else
        match Collect(ParseEach(Fragments(text, delimiter), parse))
        case None => EmptyJudgments(n)
        case Some(results) => Reconcile(results, n)
  }

  /** What `process_batch(client, messages, delimiter)` returns. */
  function ProcessBatchSpec(messages: seq<string>, delimiter: string, complete: Completion, decode: Decoder): seq<Value> {
    Judgments(complete(Payload(messages, delimiter)), |messages|, delimiter, ResponseParser(decode))
  }

  /** Parsing distributes over concatenated fragment lists. */
  lemma ParseEachAppend(a: seq<string>, b: seq<string>, parse: Parser)
    ensures ParseEach(a + b, parse) == ParseEach(a, parse) + ParseEach(b, parse)
  {
  }

  /** Once one parsed fragment raises, appending more fragments cannot bring the list back. */
  lemma CollectNoneAppend(x: seq<Parsed>, y: seq<Parsed>)
    requires Collect(x).None?
    ensures Collect(x + y).None?
  {
    var k :| 0 <= k < |x| && x[k].Raises?;
    assert (x + y)[k] == x[k];
  }

  /** Dropping blank pieces commutes with cutting the pieces in two. */
  lemma NonBlankSplitAt(parts: seq<string>, i: nat)
    requires i <= |parts|
    ensures NonBlank(parts) == NonBlank(parts[..i]) + NonBlank(parts[i..])
  {
    Rejoin(parts, i);
    NonBlankAppend(parts[..i], parts[i..]);
  }

  lemma Rejoin<T>(xs: seq<T>, i: nat)
    requires i <= |xs|
    ensures xs[..i] + xs[i..] == xs
  {
  }

  /** Once a fragment raises, a longer list of fragments raises too. */
  lemma RaisesInPrefix(parts: seq<string>, i: nat, parse: Parser)
    requires i <= |parts|
    requires Collect(ParseEach(NonBlank(parts[..i]), parse)).None?
    ensures Collect(ParseEach(NonBlank(parts), parse)).None?
  {
    NonBlankSplitAt(parts, i);
    ParseEachAppend(NonBlank(parts[..i]), NonBlank(parts[i..]), parse);
    CollectNoneAppend(ParseEach(NonBlank(parts[..i]), parse), ParseEach(NonBlank(parts[i..]), parse));
  }

  /** One more piece contributes its parse exactly when it is not blank. */
  lemma ParseEachStep(parts: seq<string>, i: nat, parse: Parser)
    requires i < |parts|
    ensures ParseEach(NonBlank(parts[..i + 1]), parse) ==
      ParseEach(NonBlank(parts[..i]), parse) + (if Strip(parts[i]) == [] then [] else [parse(Strip(parts[i]))])
  {
    assert parts[..i + 1][..i] == parts[..i];
    var tail := if Strip(parts[i]) == [] then [] else [Strip(parts[i])];
    assert NonBlank(parts[..i + 1]) == NonBlank(parts[..i]) + tail;
    ParseEachAppend(NonBlank(parts[..i]), tail, parse);
  }

  /** Collecting one more parsed fragment. */
  lemma CollectSnoc(x: seq<Parsed>, p: Parsed)
    ensures Collect(x + [p]) == if Collect(x).Some? && p.Judged? then Some(Collect(x).value + [p.value]) else None
  {
    assert (x + [p])[..|x|] == x;
  }

  /** One turn of the comprehension: piece `i` is skipped when blank, and otherwise parsed and added, unless it raises. */
  method ParseNext(parts: seq<string>, i: nat, decode: Decoder, parsed: seq<Value>) returns (next: Option<seq<Value>>)
    requires i < |parts|
    requires Collect(ParseEach(NonBlank(parts[..i]), ResponseParser(decode))) == Some(parsed)
    ensures next == Collect(ParseEach(NonBlank(parts[..i + 1]), ResponseParser(decode)))
    ensures next.None? ==> Collect(ParseEach(NonBlank(parts), ResponseParser(decode))).None?
  {
    ghost var parse := ResponseParser(decode);
    ghost var before := ParseEach(NonBlank(parts[..i]), parse);
    ParseEachStep(parts, i, parse);
    var part := Strip(parts[i]);
    if part == [] {
      assert before + [] == before;
      return Some(parsed);
    }
    var judgment := ParseResponse(part, decode);
    assert parse(part) == judgment;
    CollectSnoc(before, judgment);
    if judgment.Raises? {
      RaisesInPrefix(parts, i + 1, parse);
      return None;
    }
    return Some(parsed + [judgment.value]);
  }

  /** The comprehension `[parse_response(part.strip()) for part in parts if part.strip()]`. */
  method ParseFragments(parts: seq<string>, decode: Decoder) returns (results: Option<seq<Value>>)
    ensures results == Collect(ParseEach(NonBlank(parts), ResponseParser(decode)))
  {
    var parsed: seq<Value> := [];
    for i := 0 to |parts|
      invariant Collect(ParseEach(NonBlank(parts[..i]), ResponseParser(decode))) == Some(parsed)
    {
      var next := ParseNext(parts, i, decode, parsed);
      if next.None? {
        return None;
      }
      parsed := next.value;
    }
    assert parts[..|parts|] == parts;
    return Some(parsed);
  }

  /** `process_batch` as the source runs it: the payload, the call, the comprehension, then truncate or extend in place. */
  method ProcessBatch(complete: Completion, decode: Decoder, messages: seq<string>, delimiter: string)
    returns (results: seq<Value>)
    ensures results == ProcessBatchSpec(messages, delimiter, complete, decode)
  {
    var content := Payload(messages, delimiter);
    var response := complete(content);
    if response.Failure? || delimiter == [] {
      return EmptyJudgments(|messages|);
    }
    var parts := Split(response.text, delimiter);
    var parsed := ParseFragments(parts, decode);
    if parsed.None? {
      return EmptyJudgments(|messages|);
    }
    results := parsed.value;
    if |results| > |messages| {
      results := results[..|messages|];
    } else if |results| < |messages| {
      results := results + EmptyJudgments(|messages| - |results|);
    }
  }

  /** Each part stripped, in order. */
  function StripAll(parts: seq<string>): (r: seq<string>)
    ensures |r| == |parts| && forall k :: 0 <= k < |parts| ==> r[k] == Strip(parts[k])
  {
    seq(|parts|, k requires 0 <= k < |parts| => Strip(parts[k]))
  }

  /** When no part is blank, the kept parts are all the parts, stripped. */
  lemma {:induction false} NonBlankOfNonBlank(parts: seq<string>)
    requires forall k :: 0 <= k < |parts| ==> !AllSpace(parts[k])
    ensures NonBlank(parts) == StripAll(parts)
  {
    if parts != [] {
      var n := |parts| - 1;
      assert parts == parts[..n] + [parts[n]];
      NonBlankOfNonBlank(parts[..n]);
      NonBlankSnoc(parts[..n], parts[n]);
      assert StripAll(parts) == StripAll(parts[..n]) + [Strip(parts[n])];
    }
  }

  /**
   * A reply that is the delimiter-joined list of non-blank pieces, none of
   * which runs into the delimiter, yields exactly those pieces, stripped:
   * whitespace around the delimiter, such as the delimiter on a line of
   * its own, makes no difference.
   */
  lemma FragmentsOfJoin(pieces: seq<string>, delimiter: string)
    requires |delimiter| > 0 && |pieces| >= 1
    requires forall k :: 0 <= k < |pieces| ==> !AllSpace(pieces[k])
    requires forall k :: 0 <= k < |pieces| - 1 ==> NoEarlyMatch(pieces[k], delimiter)
    requires !Contains(pieces[|pieces| - 1], delimiter)
    ensures Fragments(Join(pieces, delimiter), delimiter) == StripAll(pieces)
  {
    SplitJoin(pieces, delimiter);
    NonBlankOfNonBlank(pieces);
  }

  /**
   * A well-formed reply whose stripped pieces all parse: message `k` gets
   * the judgment of piece `k` while there are pieces, and an all-empty
   * judgment after them; extra pieces are dropped.
   */
  lemma WellFormedReply(pieces: seq<string>, n: nat, delimiter: string, parse: Parser)
    requires |delimiter| > 0 && |pieces| >= 1
    requires forall k :: 0 <= k < |pieces| ==> !AllSpace(pieces[k])
    requires forall k :: 0 <= k < |pieces| - 1 ==> NoEarlyMatch(pieces[k], delimiter)
    requires !Contains(pieces[|pieces| - 1], delimiter)
    requires forall k :: 0 <= k < |pieces| ==> parse(Strip(pieces[k])).Judged?
    ensures var r := Judgments(Success(Join(pieces, delimiter)), n, delimiter, parse);
      && (forall k :: 0 <= k < n && k < |pieces| ==> r[k] == parse(Strip(pieces[k])).value)
      && (forall k :: |pieces| <= k < n ==> r[k] == EmptyJudgment())
  {
    FragmentsOfJoin(pieces, delimiter);
    JudgmentsOfFragments(Join(pieces, delimiter), StripAll(pieces), n, delimiter, parse);
  }

  /**
   * A reply whose fragments all parse: message `k` gets the judgment of
   * fragment `k` while there are fragments, and an all-empty judgment after
   * them.
   */
  lemma JudgmentsOfFragments(text: string, fragments: seq<string>, n: nat, delimiter: string, parse: Parser)
    requires |delimiter| > 0 && Fragments(text, delimiter) == fragments
    requires forall k :: 0 <= k < |fragments| ==> parse(fragments[k]).Judged?
    ensures var r := Judgments(Success(text), n, delimiter, parse);
      && (forall k :: 0 <= k < n && k < |fragments| ==> r[k] == parse(fragments[k]).value)
      && (forall k :: |fragments| <= k < n ==> r[k] == EmptyJudgment())
  {
    var parsed := ParseEach(fragments, parse);
    var results := Collect(parsed).value;
    var r := Judgments(Success(text), n, delimiter, parse);
    assert r == Reconcile(results, n);
    forall k | 0 <= k < n && k < |fragments| ensures r[k] == parse(fragments[k]).value {
      assert results[k] == parsed[k].value;
      if |results| >= n {
        assert r[k] == results[k];
      } else {
        assert r[..|results|][k] == results[k];
      }
    }
  }

  /**
   * The TypeError path: one fragment of the reply raising inside
   * `parse_response` empties the whole batch, not just its own judgment.
   */
  lemma RaisingFragmentEmptiesBatch(text: string, n: nat, delimiter: string, parse: Parser, k: nat)
    requires |delimiter| > 0
    requires k < |Fragments(text, delimiter)| && parse(Fragments(text, delimiter)[k]).Raises?
    ensures Judgments(Success(text), n, delimiter, parse) == EmptyJudgments(n)
  {
    assert ParseEach(Fragments(text, delimiter), parse)[k].Raises?;
  }

  /**
   * In particular, a fragment that decodes to JSON other than an object,
   * and does not hold every criterion, empties the whole batch.
   */
  lemma NonObjectFragmentEmptiesBatch(text: string, n: nat, delimiter: string, decode: Decoder, k: nat, v: Value)
    requires |delimiter| > 0 && k < |Fragments(text, delimiter)|
    requires decode(Cleaned(Fragments(text, delimiter)[k])) == Parsed(v)
    requires !v.Object? && !Complete(v)
    ensures Judgments(Success(text), n, delimiter, ResponseParser(decode)) == EmptyJudgments(n)
  {
    assert ResponseParser(decode)(Fragments(text, delimiter)[k]).Raises?;
    RaisingFragmentEmptiesBatch(text, n, delimiter, ResponseParser(decode), k);
  }
}
