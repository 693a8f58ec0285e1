/**
 * The request payload of `process_batch`: a fixed preamble that lists the
 * rubric, names the delimiter and shows the expected answer format, then a
 * blank line, then the batch messages joined by the delimiter on a line of
 * its own.
 */
module Prompt {
  import opened Text
  import opened Rubric

  /** A piece of the preamble: literal words, or a slot filled from the rubric or the delimiter. */
  datatype Piece = Words(text: string) | RubricSlot | DelimiterSlot

  /** The preamble's text, line by line as the source writes it, with its two slots. */
  const PreambleTemplate: seq<Piece> := [
    Words("You are a customer service quality analyst. "),
    Words("Assess each chat message based on the following criteria:\n"),
    RubricSlot,
    Words("\n\nFor each chat log, return a JSON response with each criterion as a key "),
    Words("(1 for yes, blank for no)."),
    Words("\nSeparate JSON responses with: "),
    DelimiterSlot,
    Words("\n"),
    Words("Ensure that the response is strictly formatted as valid JSON.\n"),
    Words("Example Response Format:\n"),
    Words("```json\n"),
    Words("{\n"),
    Words("\"Greeting & Introduction\": \"1\",\n"),
    Words("\"Understanding the Issue\": \"\",\n"),
    Words("\"Empathy\": \"1\",\n"),
    Words("\"Clarity of Response\": \"1\",\n"),
    Words("\"Resolution Provided\": \"1\",\n"),
    Words("\"Response Time\": \"\",\n"),
    Words("\"Professionalism & Politeness\": \"1\",\n"),
    Words("\"Follow-up Provided\": \"\"\n"),
    Words("}\n"),
    Words("```\n")
  ]

  /**
   * The template's pieces in order, the rubric as one criterion per line and
   * the delimiter as given, written in front of `rest`.
   */
  function Render(template: seq<Piece>, delimiter: string, rest: string): string {
    if template == [] then rest
    else PieceText(template[0], delimiter) + Render(template[1..], delimiter, rest)
  }

  /** One piece's text: its words, the rubric as one criterion per line, or the delimiter. */
  function PieceText(piece: Piece, delimiter: string): string {
    match piece
    case Words(text) => text
    case RubricSlot => Join(Criteria, "\n")
    case DelimiterSlot => delimiter
  }

  /** The instruction preamble of `process_batch`; the only input it depends on is the delimiter. */
  function Preamble(delimiter: string): string {
    Render(PreambleTemplate, delimiter, "")
  }

  /** What stands between two messages of a batch: the delimiter on a line of its own. */
  function MessageSeparator(delimiter: string): string {
    "\n" + delimiter + "\n"
  }

  /** `f"\n{delimiter}\n".join(messages)` */
  function BatchText(messages: seq<string>, delimiter: string): string {
    Join(messages, MessageSeparator(delimiter))
  }

  /** `content = prompt + "\n\n" + batch_text` */
  function Payload(messages: seq<string>, delimiter: string): string {
    Render(PreambleTemplate, delimiter, "\n\n" + BatchText(messages, delimiter))
  }

  /** Rendering in front of `rest` is rendering alone, then `rest`. */
  lemma {:induction false} RenderThen(template: seq<Piece>, delimiter: string, rest: string)
    ensures Render(template, delimiter, rest) == Render(template, delimiter, "") + rest
    decreases |template|
  {
    if template != [] {
      RenderThen(template[1..], delimiter, rest);
      var head := PieceText(template[0], delimiter);
      var tail := Render(template[1..], delimiter, "");
      assert head + (tail + rest) == (head + tail) + rest;
    }
  }

  /** The payload is the preamble, a blank line, then the batch text. */
  lemma PayloadParts(messages: seq<string>, delimiter: string)
    ensures Payload(messages, delimiter) == Preamble(delimiter) + "\n\n" + BatchText(messages, delimiter)
  {
    RenderThen(PreambleTemplate, delimiter, "\n\n" + BatchText(messages, delimiter));
  }

  /**
   * The payload carries the batch intact: what follows the preamble and the
   * blank line splits back, on the separator, into exactly the messages, as
   * long as no message runs into the separator.
   */
  lemma PayloadCarriesMessages(messages: seq<string>, delimiter: string)
    requires |messages| >= 1
    requires forall k :: 0 <= k < |messages| - 1 ==> NoEarlyMatch(messages[k], MessageSeparator(delimiter))
    requires !Contains(messages[|messages| - 1], MessageSeparator(delimiter))
    ensures StartsWith(Payload(messages, delimiter), Preamble(delimiter) + "\n\n")
    ensures Split(Payload(messages, delimiter)[|Preamble(delimiter)| + 2..], MessageSeparator(delimiter)) == messages
  {
    var head := Preamble(delimiter) + "\n\n";
    PayloadParts(messages, delimiter);
    assert Payload(messages, delimiter) == head + BatchText(messages, delimiter);
    assert Payload(messages, delimiter)[|head|..] == BatchText(messages, delimiter);
    SplitJoin(messages, MessageSeparator(delimiter));
  }
}
