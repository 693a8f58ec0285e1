/**
 * The fixed rubric (`EVALUATION_CRITERIA`) and the judgments built from it.
 * A judgment is a JSON object whose keys include every criterion; the
 * empty marker `""` stands for "criterion not met or not known".
 */
module Rubric {
  import opened Json

  /** The eight criteria, in output-column order. */
  const Criteria: seq<string> := [
    "Greeting & Introduction",
    "Understanding the Issue",
    "Empathy",
    "Clarity of Response",
    "Resolution Provided",
    "Response Time",
    "Professionalism & Politeness",
    "Follow-up Provided"
  ]

  const EmptyMark: Value := Str("")

  predicate HasAllCriteria(fields: map<string, Value>) {
    forall c :: c in Criteria ==> c in fields
  }

  /** The all-empty judgment `{item: "" for item in EVALUATION_CRITERIA}`. */
  function EmptyJudgment(): (v: Value)
    ensures v.Object? && HasAllCriteria(v.fields)
    ensures forall k :: k in v.fields ==> k in Criteria && v.fields[k] == EmptyMark
  {
    Object(map c | c in Criteria :: EmptyMark)
  }

  /** `n` all-empty judgments. */
  function EmptyJudgments(n: nat): (r: seq<Value>)
    ensures |r| == n
    ensures forall k :: 0 <= k < n ==> r[k] == EmptyJudgment()
  {
    seq(n, _ => EmptyJudgment())
  }

  /**
   * `fields` after `result[item] = ""` for each `item` of `keys` that is not
   * yet a key: the state of the dictionary part way through the filling loop.
   */
  function FillWith(fields: map<string, Value>, keys: seq<string>): map<string, Value>
  {
    map k | k in fields.Keys + (set c | c in keys) :: if k in fields then fields[k] else EmptyMark
  }

  /**
   * The parsed object after every missing criterion is filled in: every
   * criterion is a key, parsed values and unknown keys are kept unchanged,
   * `""` is added only for absent criteria, and nothing else is added.
   */
  function FillMissing(fields: map<string, Value>): (r: map<string, Value>)
    ensures HasAllCriteria(r)
    ensures forall k :: k in fields ==> k in r && r[k] == fields[k]
    ensures forall c :: c in Criteria && c !in fields ==> r[c] == EmptyMark
    ensures forall k :: k in r ==> k in fields || k in Criteria
    ensures HasAllCriteria(fields) ==> r == fields
  {
    FillWith(fields, Criteria)
  }

  /** One more key of the filling loop. */
  lemma FillWithStep(fields: map<string, Value>, keys: seq<string>, c: string)
    ensures FillWith(fields, keys + [c])
         == if c in FillWith(fields, keys) then FillWith(fields, keys)
            else FillWith(fields, keys)[c := EmptyMark]
  {
    assert (set x | x in keys + [c]) == (set x | x in keys) + {c};
  }
}
