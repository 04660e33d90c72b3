/** What the run grouping of the renderer guarantees: the runs spell out the
    zipped words, every low-confidence word is a highlighted run of its own,
    and plain and highlighted runs alternate. */
module RendererProperties {
  import opened Text
  import opened Renderer

  /** The text of the runs, concatenated. */
  function RunsText(runs: seq<Run>): string
    decreases |runs|
  {
    if runs == [] then [] else runs[0].text + RunsText(runs[1..])
  }

  /** The words of `pairs`, in order. */
  function PairWords(pairs: seq<(string, real)>): seq<string>
    decreases |pairs|
  {
    if pairs == [] then [] else [pairs[0].0] + PairWords(pairs[1..])
  }

  /** The highlighted runs among `runs`, in order. */
  function Highlighted(runs: seq<Run>): seq<Run>
    decreases |runs|
  {
    if runs == [] then []
    else (if runs[0].highlight != Plain then [runs[0]] else []) + Highlighted(runs[1..])
  }

  /** One run per word of low or medium confidence, in order: the word after a
      space, yellow from 0.5 to 0.85, red below 0.5. */
  function Flagged(pairs: seq<(string, real)>): seq<Run>
    decreases |pairs|
  {
    if pairs == [] then []
    else
      var c := pairs[0].1;
      (if c != 0.0 && c <= 0.85 then [Run(" " + pairs[0].0, if c < 0.5 then Red else Yellow)] else [])
      + Flagged(pairs[1..])
  }

  /** The number of pairs whose confidence is non-zero and at most 0.85. */
  function LowConfidenceCount(pairs: seq<(string, real)>): nat
    decreases |pairs|
  {
    if pairs == [] then 0
    else (if pairs[0].1 != 0.0 && pairs[0].1 <= 0.85 then 1 else 0) + LowConfidenceCount(pairs[1..])
  }

  /** The runs spell out the pending text followed by `" " + w` for every word. */
  lemma {:induction false} RunsFromText(pending: string, pairs: seq<(string, real)>)
    ensures RunsText(RunsFrom(pending, pairs)) == pending + Spaced(PairWords(pairs))
    decreases |pairs|
  {
    if pairs == [] {
      assert RunsText([Run(pending, Plain)]) == pending + RunsText([]);
    } else {
      var w := pairs[0].0;
      var rest := Spaced(PairWords(pairs[1..]));
      assert Spaced(PairWords(pairs)) == " " + w + rest by {
        assert PairWords(pairs)[0] == w && PairWords(pairs)[1..] == PairWords(pairs[1..]);
      }
      if Classify(pairs[0].1) == Plain {
        RunsFromText(pending + " " + w, pairs[1..]);
        assert pending + " " + w + rest == pending + (" " + w + rest);
      } else {
        var tail := RunsFrom("", pairs[1..]);
        var runs := [Run(pending, Plain), Run(" " + w, Classify(pairs[0].1))] + tail;
        assert runs[1..][1..] == tail;
        RunsFromText("", pairs[1..]);
        assert RunsText(tail) == rest;
        assert RunsText(runs[1..]) == " " + w + rest;
        assert RunsText(runs) == pending + (" " + w + rest);
      }
    }
  }

  /** The highlighted runs are exactly the flagged words, in order. */
  lemma {:induction false} RunsFromHighlighted(pending: string, pairs: seq<(string, real)>)
    ensures Highlighted(RunsFrom(pending, pairs)) == Flagged(pairs)
    decreases |pairs|
  {
    if pairs == [] {
      assert Highlighted([Run(pending, Plain)]) == [] + Highlighted([]);
    } else {
      var c := pairs[0].1;
      if Classify(c) == Plain {
        RunsFromHighlighted(pending + " " + pairs[0].0, pairs[1..]);
      } else {
        var tail := RunsFrom("", pairs[1..]);
        var h := Run(" " + pairs[0].0, Classify(c));
        var runs := [Run(pending, Plain), h] + tail;
        assert runs[1..] == [h] + tail;
        assert ([h] + tail)[1..] == tail;
        RunsFromHighlighted("", pairs[1..]);
        assert Highlighted(runs) == [h] + Highlighted(tail);
      }
    }
  }

  /** As many runs are highlighted as there are words of non-zero confidence
      up to 0.85. */
  lemma {:induction false} FlaggedCount(pairs: seq<(string, real)>)
    ensures |Flagged(pairs)| == LowConfidenceCount(pairs)
    decreases |pairs|
  {
    if pairs != [] {
      FlaggedCount(pairs[1..]);
    }
  }

  /** Plain runs and highlighted runs alternate, starting and ending with a
      plain run (which may be empty). */
  lemma {:induction false} RunsFromShape(pending: string, pairs: seq<(string, real)>)
    ensures var runs := RunsFrom(pending, pairs);
      && |runs| == 2 * LowConfidenceCount(pairs) + 1
      && forall i :: 0 <= i < |runs| ==> (runs[i].highlight == Plain <==> i % 2 == 0)
    decreases |pairs|
  {
    if pairs != [] {
      var c := pairs[0].1;
      if Classify(c) == Plain {
        RunsFromShape(pending + " " + pairs[0].0, pairs[1..]);
      } else {
        var tail := RunsFrom("", pairs[1..]);
        RunsFromShape("", pairs[1..]);
        var runs := [Run(pending, Plain), Run(" " + pairs[0].0, Classify(c))] + tail;
        forall i | 2 <= i < |runs| ensures (runs[i].highlight == Plain <==> i % 2 == 0) {
          assert runs[i] == tail[i - 2];
        }
      }
    }
  }

  lemma {:induction false} PairWordsOfZip(words: seq<string>, confidences: seq<real>)
    ensures var n := if |words| < |confidences| then |words| else |confidences|;
      PairWords(Zip(words, confidences)) == words[..n]
    decreases |words|
  {
    if words != [] && confidences != [] {
      PairWordsOfZip(words[1..], confidences[1..]);
      var n := if |words| < |confidences| then |words| else |confidences|;
      assert words[..n] == [words[0]] + words[1..][..n - 1];
    }
  }

  /** The runs of a paragraph spell out `" " + w` for each of its first
      `min(#words, #confidences)` words: words beyond the confidences are dropped. */
  lemma ParagraphRunsText(text: string, confidences: seq<real>)
    ensures var words := Split(text);
      var n := if |words| < |confidences| then |words| else |confidences|;
      RunsText(ParagraphRuns(text, confidences)) == Spaced(words[..n])
  {
    RunsFromText("", Zip(Split(text), confidences));
    PairWordsOfZip(Split(text), confidences);
  }

  /** The highlighted runs of a paragraph are its flagged zipped words, one run
      per word, as many as there are zipped words of non-zero confidence up to 0.85;
      plain and highlighted runs alternate. */
  lemma ParagraphRunsHighlights(text: string, confidences: seq<real>)
    ensures var pairs := Zip(Split(text), confidences);
      var runs := ParagraphRuns(text, confidences);
      && Highlighted(runs) == Flagged(pairs)
      && |Highlighted(runs)| == LowConfidenceCount(pairs)
      && |runs| == 2 * LowConfidenceCount(pairs) + 1
      && forall i :: 0 <= i < |runs| ==> (runs[i].highlight == Plain <==> i % 2 == 0)
  {
    var pairs := Zip(Split(text), confidences);
    RunsFromHighlighted("", pairs);
    FlaggedCount(pairs);
    RunsFromShape("", pairs);
  }

  lemma ExampleWords()
    ensures Split(" cat dog fox") == ["cat", "dog", "fox"]
  {
    var ws := ["cat", "dog", "fox"];
    assert IsWord("cat") && IsWord("dog") && IsWord("fox");
    assert Spaced(ws) == " cat dog fox" by {
      assert ws[1..][1..][1..] == [];
    }
    SplitSpaced(ws);
  }

  /** Words of confidence 0.9, 0.6 and 0.2: a plain run, a yellow run, and a red
      run, each highlighted run preceded by the plain text flushed before it
      (empty before the red one) and an empty plain run at the end. */
  lemma RenderExample()
    ensures ParagraphRuns(" cat dog fox", [0.9, 0.6, 0.2])
         == [Run(" cat", Plain), Run(" dog", Yellow), Run("", Plain), Run(" fox", Red), Run("", Plain)]
  {
    ExampleWords();
    var pairs := Zip(["cat", "dog", "fox"], [0.9, 0.6, 0.2]);
    assert pairs == [("cat", 0.9), ("dog", 0.6), ("fox", 0.2)];
    var last := [Run("", Plain), Run(" fox", Red), Run("", Plain)];
    assert RunsFrom("", pairs[2..]) == last by {
      assert pairs[2..] == [("fox", 0.2)];
      assert Classify(0.2) == Red;
      assert " " + "fox" == " fox";
      assert [("fox", 0.2)][1..] == [];
    }
    assert RunsFrom(" cat", pairs[1..]) == [Run(" cat", Plain), Run(" dog", Yellow)] + last by {
      assert pairs[1..][0] == ("dog", 0.6) && pairs[1..][1..] == pairs[2..];
      assert Classify(0.6) == Yellow;
      assert " " + "dog" == " dog";
    }
    assert RunsFrom("", pairs) == RunsFrom(" cat", pairs[1..]) by {
      assert pairs[0] == ("cat", 0.9);
      assert Classify(0.9) == Plain;
      assert "" + " " + "cat" == " cat";
    }
  }
}
