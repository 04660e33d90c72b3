/** The document renderer of `write_to_doc`: each paragraph becomes its header
    and a sequence of runs, low-confidence words highlighted one run each. The
    document object itself is represented by the blocks written into it. */
module Renderer {
  import opened Text
  import opened Reshaper

  /** The highlight colour of a run; `Plain` is a run without highlight. */
  datatype Highlight = Plain | Yellow | Red

  datatype Run = Run(text: string, highlight: Highlight)

  /** A paragraph of the document: a header line, or a line of runs. */
  datatype Block = HeaderParagraph(text: string) | RunParagraph(runs: seq<Run>)

  /** The highlight of a word of the given confidence: yellow for medium
      confidence, red for low confidence, none for confidence 0 or above 0.85. */
  function Classify(confidence: real): (h: Highlight)
    ensures h == Yellow <==> 0.5 <= confidence <= 0.85
    ensures h == Red <==> confidence < 0.5 && confidence != 0.0
    ensures h == Plain <==> confidence == 0.0 || confidence > 0.85
  {
    if confidence <= 0.85 && confidence >= 0.5 && confidence != 0.0 then Yellow
    else if confidence < 0.5 && confidence != 0.0 then Red
    else Plain
  }

  /** Python's `zip`: pairs up the words and confidences, stopping at the shorter list. */
  function Zip(words: seq<string>, confidences: seq<real>): (pairs: seq<(string, real)>)
    ensures |pairs| == if |words| < |confidences| then |words| else |confidences|
    ensures forall i :: 0 <= i < |pairs| ==> pairs[i] == (words[i], confidences[i])
    decreases |words|
  {
    if words == [] || confidences == [] then []
    else [(words[0], confidences[0])] + Zip(words[1..], confidences[1..])
  }

  /** The runs written for `pairs` when the plain text `pending` has already
      been accumulated: each highlighted word flushes the pending text as a
      plain run and is then a run of its own; the rest is flushed at the end. */
  function RunsFrom(pending: string, pairs: seq<(string, real)>): seq<Run>
    decreases |pairs|
  {
    if pairs == [] then [Run(pending, Plain)]
    else
      var h := Classify(pairs[0].1);
      if h == Plain then RunsFrom(pending + " " + pairs[0].0, pairs[1..])
      else [Run(pending, Plain), Run(" " + pairs[0].0, h)] + RunsFrom("", pairs[1..])
  }

  /** The runs of a paragraph with the given text and confidences. */
  function ParagraphRuns(text: string, confidences: seq<real>): seq<Run>
  {
    RunsFrom("", Zip(Split(text), confidences))
  }

  /** The inner loop of `write_to_doc`: the runs added to the paragraph for
      one transcript entry. */
  method AddRuns(text: string, confidences: seq<real>) returns (content: seq<Run>)
    ensures content == ParagraphRuns(text, confidences)
  {
    var confWords := "";
    content := [];
    var pairs := Zip(Split(text), confidences);
    for k := 0 to |pairs|
      invariant content + RunsFrom(confWords, pairs[k..]) == RunsFrom("", pairs)
    {
      assert pairs[k..][1..] == pairs[k + 1..];
      var (word, confidence) := pairs[k];
      if confidence <= 0.85 && confidence >= 0.5 && confidence != 0.0 {
        content := content + [Run(confWords, Plain)];
        content := content + [Run(" " + word, Yellow)];
        confWords := "";
      } else if confidence < 0.5 && confidence != 0.0 {
        content := content + [Run(confWords, Plain)];
        content := content + [Run(" " + word, Red)];
        confWords := "";
      } else {
        confWords := confWords + " " + word;
      }
    }
    content := content + [Run(confWords, Plain)];
  }

  /** `write_to_doc` up to saving the document: for every entry, in order, a
      paragraph holding its header and then a paragraph holding its runs. */
  method WriteToDoc(transcript: Transcript) returns (doc: seq<Block>)
    ensures |doc| == 2 * |transcript|
    ensures forall k :: 0 <= k < |transcript| ==>
      doc[2 * k] == HeaderParagraph(transcript[k].para.header) &&
      doc[2 * k + 1] == RunParagraph(ParagraphRuns(transcript[k].para.text, transcript[k].para.confidences))
  {
    doc := [];
    for i := 0 to |transcript|
      invariant |doc| == 2 * i
      invariant forall k :: 0 <= k < i ==>
        doc[2 * k] == HeaderParagraph(transcript[k].para.header) &&
        doc[2 * k + 1] == RunParagraph(ParagraphRuns(transcript[k].para.text, transcript[k].para.confidences))
    {
      var entry := transcript[i];
      var content := AddRuns(entry.para.text, entry.para.confidences);
      doc := doc + [HeaderParagraph(entry.para.header), RunParagraph(content)];
    }
  }
}
