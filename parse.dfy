/**
 * `parse_response`: one reply fragment to one judgment. The text is
 * stripped, a Markdown code fence is removed, the rest is decoded as JSON,
 * and missing criteria are filled with `""`. A decode error gives the
 * all-empty judgment. For a decoded value that is not an object the
 * criterion loop's `item in result` / `result[item] = ""` raise a
 * `TypeError`, which `parse_response` does not catch: that is `Raises`.
 */
module Parse {
  import opened Wrappers
  import opened Text
  import opened Json
  import opened Rubric

  const Fence: string := "```"

  /** How `parse_response` ends: with a value, or by letting a `TypeError` escape. */
  datatype Parsed = Judged(value: Value) | Raises

  /**
   * Python's `item in value` for a decoded value: key membership for an
   * object, element equality for a list, substring for a string; `None` when
   * the operator itself raises `TypeError` (numbers, booleans, `null`).
   */
  function Membership(value: Value, item: string): (r: Option<bool>)
    ensures r.None? <==> !(value.Object? || value.Array? || value.Str?)
  {
    match value
    case Object(fields) => Some(item in fields)
    case Array(items) => Some(Str(item) in items)
    case Str(s) => Some(Contains(s, item))
    case _ => None
  }

  /**
   * What a finished `parse_response` result looks like: an object that has
   * every criterion as a key, or a list or string for which every criterion
   * passes the `in` test (so the loop never reached an assignment).
   */
  predicate Complete(v: Value) {
    match v
    case Object(fields) => HasAllCriteria(fields)
    case Array(_) => forall c :: c in Criteria ==> Membership(v, c) == Some(true)
    case Str(_) => forall c :: c in Criteria ==> Membership(v, c) == Some(true)
    case _ => false
  }

  /** Text that starts with a fence has a first line, and that line starts with the fence. */
  lemma FenceOpensFirstLine(c: string)
    requires StartsWith(c, Fence)
    ensures SplitLines(c) != [] && StartsWith(SplitLines(c)[0], Fence)
  {
    var i := FirstBreak(c, 0);
    assert c[0] == '`' && c[1] == '`' && c[2] == '`';
    assert !IsLineBreak(c[0]) && !IsLineBreak(c[1]) && !IsLineBreak(c[2]);
    assert i >= 3;
    assert c[..i][..3] == c[..3];
  }

  /** The last line, when there is one, is a bare closing fence. */
  predicate EndsWithClosingFence(lines: seq<string>) {
    |lines| > 0 && Strip(lines[|lines| - 1]) == Fence
  }

  /** The fence-removal step of `parse_response`, on text that is already stripped. */
  function StripFence(cleaned: string): string
  {
    if !StartsWith(cleaned, Fence) then cleaned
    else
      FenceOpensFirstLine(cleaned);
      var lines := SplitLines(cleaned);
      var afterOpen := if StartsWith(lines[0], Fence) then lines[1..] else lines;
      var body := if EndsWithClosingFence(afterOpen) then afterOpen[..|afterOpen| - 1] else afterOpen;
      Strip(Join(body, "\n"))
  }

  /**
   * Fence removal always drops the first line, drops the last remaining line
   * exactly when it is a bare closing fence, and leaves text without an
   * opening fence as it is.
   */
  lemma StripFenceDropsFenceLines(cleaned: string)
    ensures !StartsWith(cleaned, Fence) ==> StripFence(cleaned) == cleaned
    ensures StartsWith(cleaned, Fence) ==>
      var rest := SplitLines(cleaned)[1..];
      && (EndsWithClosingFence(rest) ==> StripFence(cleaned) == Strip(Join(rest[..|rest| - 1], "\n")))
      && (!EndsWithClosingFence(rest) ==> StripFence(cleaned) == Strip(Join(rest, "\n")))
  {
    if StartsWith(cleaned, Fence) {
      FenceOpensFirstLine(cleaned);
    }
  }

  /** The text `json.loads` is given for a fragment. */
  function Cleaned(responseText: string): string {
    StripFence(Strip(responseText))
  }

  /**
   * The criterion loop of `parse_response` on a decoded value: an object
   * gets every missing criterion added as `""` (parsed values and unknown
   * keys kept, nothing else added); any other value comes back unchanged if
   * every criterion passes the `in` test, and otherwise the loop raises.
   */
  function FillCriteria(v: Value): (r: Parsed)
    ensures r.Judged? ==> Complete(r.value)
    ensures r.Raises? <==> !v.Object? && !Complete(v)
    ensures v.Object? ==>
      && r.Judged? && r.value.Object?
      && (forall k :: k in v.fields ==> k in r.value.fields && r.value.fields[k] == v.fields[k])
      && (forall c :: c in Criteria && c !in v.fields ==> r.value.fields[c] == EmptyMark)
      && (forall k :: k in r.value.fields ==> k in v.fields || k in Criteria)
    ensures !v.Object? && r.Judged? ==> r.value == v
  {
    match v
    case Object(fields) => Judged(Object(FillMissing(fields)))
    case _ => if Complete(v) then Judged(v) else Raises
  }

  /**
   * `parse_response(response_text)`: the cleaned text is decoded; a decode
   * error gives the all-empty judgment, a value goes through the criterion
   * loop. Whatever it returns has every criterion.
   */
  function ParseSpec(responseText: string, decode: Decoder): (r: Parsed)
    ensures r.Judged? ==> Complete(r.value)
    ensures decode(Cleaned(responseText)).DecodeError? ==> r == Judged(EmptyJudgment())
    ensures decode(Cleaned(responseText)).Parsed? ==> r == FillCriteria(decode(Cleaned(responseText)).value)
  {
    match decode(Cleaned(responseText))
    case DecodeError => Judged(EmptyJudgment())
    case Parsed(v) => FillCriteria(v)
  }

  /**
   * The `for item in EVALUATION_CRITERIA` loop of `parse_response`, run on
   * the decoded value: test `item in result`, assign `""` when absent.
   */
  method FillCriteriaLoop(decoded: Value) returns (p: Parsed)
    ensures p == FillCriteria(decoded)
  {
    var result := decoded;
    for i := 0 to |Criteria|
      invariant decoded.Object? ==> result == Object(FillWith(decoded.fields, Criteria[..i]))
      invariant !decoded.Object? ==> result == decoded
      invariant !decoded.Object? ==> forall j :: 0 <= j < i ==> Membership(result, Criteria[j]) == Some(true)
    {
      var item := Criteria[i];
      var present := Membership(result, item);
      assert Criteria[..i + 1] == Criteria[..i] + [item];
      if present == Some(false) && result.Object? {
        FillWithStep(decoded.fields, Criteria[..i], item);
        result := Object(result.fields[item := EmptyMark]);
      } else if present != Some(true) {
        assert !Complete(result) by {
          assert item in Criteria;
        }
        return Raises;
      } else if result.Object? {
        FillWithStep(decoded.fields, Criteria[..i], item);
      }
    }
    assert Criteria[..|Criteria|] == Criteria;
    if !decoded.Object? {
      forall c | c in Criteria ensures Membership(result, c) == Some(true) {
        var j :| 0 <= j < |Criteria| && Criteria[j] == c;
      }
      assert Membership(result, Criteria[0]) == Some(true);
      assert Complete(result);
    } else {
      assert result.fields == FillMissing(decoded.fields);
    }
    return Judged(result);
  }

  /**
   * The fence-removal block of `parse_response`, as the source runs it: the
   * line list is reassigned step by step and joined back.
   */
  method RemoveFence(stripped: string) returns (cleaned: string)
    ensures cleaned == StripFence(stripped)
  {
    cleaned := stripped;
    if StartsWith(cleaned, Fence) {
      FenceOpensFirstLine(cleaned);
      var lines := SplitLines(cleaned);
      if StartsWith(lines[0], Fence) {
        lines := lines[1..];
      }
      ghost var afterOpen := lines;
      if |lines| > 0 && Strip(lines[|lines| - 1]) == Fence {
        lines := lines[..|lines| - 1];
      }
      assert lines == if EndsWithClosingFence(afterOpen) then afterOpen[..|afterOpen| - 1] else afterOpen;
      cleaned := Strip(Join(lines, "\n"));
    }
  }

  /**
   * `parse_response`: strip, remove the fence, decode; a decode error gives
   * the all-empty judgment, a value goes through the criterion loop.
   */
  method ParseResponse(responseText: string, decode: Decoder) returns (p: Parsed)
    ensures p == ParseSpec(responseText, decode)
  {
    var cleaned := RemoveFence(Strip(responseText));
    var decoded := decode(cleaned);
    if decoded.DecodeError? {
      return Judged(EmptyJudgment());
    }
    p := FillCriteriaLoop(decoded.value);
  }
}
