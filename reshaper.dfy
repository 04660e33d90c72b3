/** The transcript reshaper: speaker segments and word-level items from a
    transcription result become numbered per-speaker paragraphs, each a header,
    an accumulated text and the list of confidences of the words in it. */
module Reshaper {
  import opened Text
  import opened Clock

  /** One diarization segment: who speaks from `start` to `end` seconds. */
  datatype Segment = Segment(speakerLabel: string, startTime: real, endTime: real)

  /** One recognised item. Punctuation carries no timing and no confidence. */
  datatype Item =
    | Punctuation(content: string)
    | Pronunciation(content: string, startTime: real, endTime: real, confidence: real)

  datatype Paragraph = Paragraph(header: string, text: string, confidences: seq<real>)

  /** One key/value pair of the transcript dictionary, in insertion order. */
  datatype Entry = Entry(key: int, para: Paragraph)

  type Transcript = seq<Entry>

  /** Taking the last character of an empty speaker label raises an `IndexError`. */
  datatype Error = EmptySpeakerLabel(segment: nat)

  datatype Result<T> = Success(value: T) | Failure(error: Error)

  /** Text and confidences accumulated by the scan of the items for one segment. */
  datatype Scan = Scan(text: string, confidences: seq<real>)

  function Concat(a: Scan, b: Scan): Scan
  {
    Scan(a.text + b.text, a.confidences + b.confidences)
  }

  /** What the scan of `items` for `seg` accumulates: punctuation is always
      appended; a pronunciation inside the segment, or ending exactly at its end,
      is appended after a space with its confidence; the first pronunciation that
      ends after the segment ends the scan; any other item is skipped. */
  function ScanItems(seg: Segment, items: seq<Item>): Scan
    decreases |items|
  {
    if items == [] then Scan([], [])
    else
      match items[0]
      case Punctuation(c) => Concat(Scan(c, []), ScanItems(seg, items[1..]))
      case Pronunciation(c, s, e, conf) =>
        if seg.startTime <= s && seg.endTime >= e then Concat(Scan(" " + c, [conf]), ScanItems(seg, items[1..]))
        else if seg.endTime == e then Concat(Scan(" " + c, [conf]), ScanItems(seg, items[1..]))
        else if seg.endTime < e then Scan([], [])
        else ScanItems(seg, items[1..])
  }

  /** The header `"[HH:MM:SS] Speaker X"`, where X is the last character of the label. */
  function Header(start: real, speakerLabel: string): string
    requires speakerLabel != []
  {
    Timestamp(start) + " Speaker " + [speakerLabel[|speakerLabel| - 1]]
  }

  /** The paragraph stored for `seg`. */
  function ParagraphFor(seg: Segment, items: seq<Item>): Paragraph
    requires seg.speakerLabel != []
  {
    var scan := ScanItems(seg, items);
    Paragraph(Header(seg.startTime, seg.speakerLabel), LStrip(scan.text, StripChars), scan.confidences)
  }

  /** The index of the first segment whose speaker label is empty, or `|segs|`. */
  function FirstEmptyLabel(segs: seq<Segment>): (n: nat)
    ensures n <= |segs|
    ensures forall i :: 0 <= i < n ==> segs[i].speakerLabel != []
    ensures n < |segs| ==> segs[n].speakerLabel == []
    decreases |segs|
  {
    if segs == [] || segs[0].speakerLabel == [] then 0 else 1 + FirstEmptyLabel(segs[1..])
  }

  /** The transcript built from a transcription result's segments and items:
      the paragraph of every segment, keyed from 1 in segment order, or the
      error raised at the first segment with an empty speaker label. */
  function Reshape(segs: seq<Segment>, items: seq<Item>): Result<Transcript>
  {
    var n := FirstEmptyLabel(segs);
    if n < |segs| then Failure(EmptySpeakerLabel(n))
    else Success(Entries(segs, items))
  }

  /** The entry of every segment, keyed from 1 in segment order. */
  function Entries(segs: seq<Segment>, items: seq<Item>): seq<Entry>
    requires forall k :: 0 <= k < |segs| ==> segs[k].speakerLabel != []
  {
    seq(|segs|, k requires 0 <= k < |segs| => Entry(k + 1, ParagraphFor(segs[k], items)))
  }

  /** The inner loop of `get_transcription_data`: one pass over the items,
      from the first, for the segment `speaker`. */
  method ScanSegment(speaker: Segment, wordData: seq<Item>) returns (words: string, confidence: seq<real>)
    ensures Scan(words, confidence) == ScanItems(speaker, wordData)
  {
    words := "";
    confidence := [];
    for j := 0 to |wordData|
      invariant Concat(Scan(words, confidence), ScanItems(speaker, wordData[j..])) == ScanItems(speaker, wordData)
    {
      var wordInfo := wordData[j];
      assert wordData[j..][1..] == wordData[j + 1..];
      if wordInfo.Punctuation? {
        words := words + wordInfo.content;
      } else if speaker.startTime <= wordInfo.startTime && speaker.endTime >= wordInfo.endTime {
        words := words + " " + wordInfo.content;
        confidence := confidence + [wordInfo.confidence];
      } else if speaker.endTime == wordInfo.endTime {
        words := words + " " + wordInfo.content;
        confidence := confidence + [wordInfo.confidence];
      } else if speaker.endTime < wordInfo.endTime {
        break;
      }
    }
  }

  /** `t` holds the entries of the first `n` segments, each with a non-empty label. */
  predicate BuiltUpTo(t: Transcript, segs: seq<Segment>, items: seq<Item>, n: nat)
  {
    && n <= |segs| && |t| == n
    && forall k :: 0 <= k < n ==> segs[k].speakerLabel != [] && t[k] == Entry(k + 1, ParagraphFor(segs[k], items))
  }

  lemma BuiltUpToStep(t: Transcript, segs: seq<Segment>, items: seq<Item>, n: nat, para: Paragraph)
    requires BuiltUpTo(t, segs, items, n) && n < |segs| && segs[n].speakerLabel != []
    requires para == ParagraphFor(segs[n], items)
    ensures BuiltUpTo(t + [Entry(n + 1, para)], segs, items, n + 1)
  {
    var t' := t + [Entry(n + 1, para)];
    forall k | 0 <= k < n + 1
      ensures segs[k].speakerLabel != [] && t'[k] == Entry(k + 1, ParagraphFor(segs[k], items))
    {
      if k < n {
        assert segs[k].speakerLabel != [] && t[k] == Entry(k + 1, ParagraphFor(segs[k], items));
        assert t'[k] == t[k];
      }
    }
  }

  lemma NoEmptyLabel(segs: seq<Segment>)
    requires forall k :: 0 <= k < |segs| ==> segs[k].speakerLabel != []
    ensures FirstEmptyLabel(segs) == |segs|
  {
  }

  lemma BuiltEntries(t: Transcript, segs: seq<Segment>, items: seq<Item>)
    requires BuiltUpTo(t, segs, items, |segs|)
    ensures Entries(segs, items) == t
  {
    var e := Entries(segs, items);
    forall k | 0 <= k < |t| ensures e[k] == t[k] {
    }
  }

  lemma BuiltAll(t: Transcript, segs: seq<Segment>, items: seq<Item>)
    requires BuiltUpTo(t, segs, items, |segs|)
    ensures Reshape(segs, items) == Success(t)
  {
    NoEmptyLabel(segs);
    BuiltEntries(t, segs, items);
  }

  /** `get_transcription_data` on an already loaded result: one paragraph per
      segment, keyed from 1 in segment order; a segment with an empty speaker
      label ends the run with an error. */
  method GetTranscriptionData(speakerData: seq<Segment>, wordData: seq<Item>) returns (r: Result<Transcript>)
    ensures r == Reshape(speakerData, wordData)
  {
    var transcript: Transcript := [];
    var paraCount := 0;
    while paraCount < |speakerData|
      invariant BuiltUpTo(transcript, speakerData, wordData, paraCount)
    {
      var speaker := speakerData[paraCount];
      paraCount := paraCount + 1;
      if speaker.speakerLabel == [] {
        assert FirstEmptyLabel(speakerData) == paraCount - 1;
        return Failure(EmptySpeakerLabel(paraCount - 1));
      }
      var words, confidence := ScanSegment(speaker, wordData);
      var para := Paragraph(Header(speaker.startTime, speaker.speakerLabel), LStrip(words, StripChars), confidence);
      BuiltUpToStep(transcript, speakerData, wordData, paraCount - 1, para);
      transcript := transcript + [Entry(paraCount, para)];
    }
    BuiltAll(transcript, speakerData, wordData);
    r := Success(transcript);
  }
}
