/** What the transcript reshaper guarantees, stated against reference
    definitions: which items a segment's scan reaches and appends, and what
    each paragraph and the whole transcript then hold. */
module ReshaperProperties {
  import opened Text
  import opened Clock
  import opened Reshaper

  /** Whether reaching `item` ends the scan for `seg` (the `break`). */
  predicate Stops(seg: Segment, item: Item)
  {
    item.Pronunciation? && seg.endTime < item.endTime
  }

  /** Whether the scan for `seg` appends `item` once it reaches it. */
  predicate Appends(seg: Segment, item: Item)
  {
    match item
    case Punctuation(_) => true
    case Pronunciation(_, s, e, _) => (seg.startTime <= s && e <= seg.endTime) || e == seg.endTime
  }

  /** The index of the first item that stops the scan for `seg`, or `|items|` if none does. */
  function StopIndex(seg: Segment, items: seq<Item>): (k: nat)
    ensures k <= |items|
    ensures forall i :: 0 <= i < k ==> !Stops(seg, items[i])
    ensures k < |items| ==> Stops(seg, items[k])
    decreases |items|
  {
    if items == [] || Stops(seg, items[0]) then 0 else 1 + StopIndex(seg, items[1..])
  }

  /** The items of `items` that the scan for `seg` appends, in order. */
  function Kept(seg: Segment, items: seq<Item>): seq<Item>
    decreases |items|
  {
    if items == [] then []
    else (if Appends(seg, items[0]) then [items[0]] else []) + Kept(seg, items[1..])
  }

  /** The items appended to the paragraph of `seg`: those kept among the items
      before the first one that stops the scan. */
  function Appended(seg: Segment, items: seq<Item>): seq<Item>
  {
    Kept(seg, items[..StopIndex(seg, items)])
  }

  /** The text made of `xs`: punctuation as it is, every other item after a space. */
  function ItemsText(xs: seq<Item>): string
    decreases |xs|
  {
    if xs == [] then []
    else
      match xs[0]
      case Punctuation(c) => c + ItemsText(xs[1..])
      case Pronunciation(c, _, _, _) => " " + c + ItemsText(xs[1..])
  }

  /** The pronunciation items of `xs`, in order. */
  function WordsOf(xs: seq<Item>): (ws: seq<Item>)
    ensures forall j :: 0 <= j < |ws| ==> ws[j].Pronunciation?
    decreases |xs|
  {
    if xs == [] then []
    else (if xs[0].Pronunciation? then [xs[0]] else []) + WordsOf(xs[1..])
  }

  /** The confidences carried by `xs`, in order. */
  function ConfidencesOf(xs: seq<Item>): seq<real>
    decreases |xs|
  {
    if xs == [] then []
    else
      match xs[0]
      case Punctuation(_) => ConfidencesOf(xs[1..])
      case Pronunciation(_, _, _, conf) => [conf] + ConfidencesOf(xs[1..])
  }

  /** The scan for `seg` accumulates exactly the appended items: their text, and
      the confidences they carry. */
  lemma {:induction false} ScanIsAppended(seg: Segment, items: seq<Item>)
    ensures ScanItems(seg, items) == Scan(ItemsText(Appended(seg, items)), ConfidencesOf(Appended(seg, items)))
    decreases |items|
  {
    if items == [] {
    } else if Stops(seg, items[0]) {
      assert StopIndex(seg, items) == 0;
    } else {
      var x := items[0];
      var k := StopIndex(seg, items[1..]);
      assert StopIndex(seg, items) == k + 1;
      var pre := items[1..][..k];
      assert items[..k + 1] == [x] + pre;
      assert ([x] + pre)[1..] == pre;
      var rest := Appended(seg, items[1..]);
      assert rest == Kept(seg, pre);
      ScanIsAppended(seg, items[1..]);
      if Appends(seg, x) {
        assert Appended(seg, items) == [x] + rest;
        assert ([x] + rest)[1..] == rest;
      } else {
        assert Appended(seg, items) == [] + rest == rest;
      }
    }
  }

  /** There is one confidence for every pronunciation item, in the same order,
      and punctuation carries none. */
  lemma {:induction false} OneConfidencePerWord(xs: seq<Item>)
    ensures |ConfidencesOf(xs)| == |WordsOf(xs)|
    ensures forall j :: 0 <= j < |WordsOf(xs)| ==> ConfidencesOf(xs)[j] == WordsOf(xs)[j].confidence
    decreases |xs|
  {
    if xs != [] {
      OneConfidencePerWord(xs[1..]);
    }
  }

  /** The stored header is the timestamp of the segment start (whose fields are
      in range), then `" Speaker "`, then the last character of the label. */
  lemma HeaderLayout(start: real, speakerLabel: string)
    requires speakerLabel != []
    ensures var h := Header(start, speakerLabel);
      |h| == 20 && h[..10] == Timestamp(start) && h[10..19] == " Speaker "
      && h[19] == speakerLabel[|speakerLabel| - 1]
      && ReadTimestamp(h[..10]) == ClockOf(start)
  {
    TimestampShowsClock(start);
  }

  /** A stored paragraph: its text is the text of the appended items with the
      leading run of punctuation characters (and nothing else) removed, and it
      has one confidence per appended pronunciation item, in order. */
  lemma ParagraphContents(seg: Segment, items: seq<Item>)
    requires seg.speakerLabel != []
    ensures var p := ParagraphFor(seg, items);
      var acc := ItemsText(Appended(seg, items));
      var words := WordsOf(Appended(seg, items));
      && |p.text| <= |acc| && p.text == acc[|acc| - |p.text|..]
      && (forall i :: 0 <= i < |acc| - |p.text| ==> acc[i] in StripChars)
      && (p.text == [] || p.text[0] !in StripChars)
      && |p.confidences| == |words|
      && (forall j :: 0 <= j < |words| ==> p.confidences[j] == words[j].confidence)
  {
    ScanIsAppended(seg, items);
    OneConfidencePerWord(Appended(seg, items));
    LStripRemovesPrefix(ItemsText(Appended(seg, items)), StripChars);
  }

  /** The scan for a segment reads the items from the first one up to the first
      one that stops it, and nothing after that. */
  lemma {:induction false} ScanIgnoresLaterItems(seg: Segment, a: seq<Item>, b: seq<Item>)
    requires StopIndex(seg, a) < |a| && StopIndex(seg, a) < |b|
    requires a[..StopIndex(seg, a) + 1] == b[..StopIndex(seg, a) + 1]
    ensures ScanItems(seg, a) == ScanItems(seg, b)
    decreases |a|
  {
    var k := StopIndex(seg, a);
    assert a[0] == a[..k + 1][0] == b[..k + 1][0] == b[0];
    if k > 0 {
      assert a[1..][..k] == a[..k + 1][1..] == b[..k + 1][1..] == b[1..][..k];
      ScanIgnoresLaterItems(seg, a[1..], b[1..]);
    }
  }

  /** Removing a punctuation item never changes the confidences of a segment. */
  lemma {:induction false} PunctuationAddsNoConfidence(seg: Segment, items: seq<Item>, i: nat)
    requires i < |items| && items[i].Punctuation?
    ensures ScanItems(seg, items[..i] + items[i + 1..]).confidences == ScanItems(seg, items).confidences
    decreases i
  {
    if i == 0 {
      assert items[..0] + items[1..] == items[1..];
    } else {
      var shorter := items[..i] + items[i + 1..];
      assert shorter[0] == items[0];
      assert shorter[1..] == items[1..][..i - 1] + items[1..][i..];
      PunctuationAddsNoConfidence(seg, items[1..], i - 1);
    }
  }

  /** The transcript has one entry per segment, keyed 1 to n in segment order,
      each the paragraph of that segment over the whole item list; it is an
      error exactly when some segment's label is empty, naming the first one. */
  lemma ReshapeOutcome(segs: seq<Segment>, items: seq<Item>)
    ensures var r := Reshape(segs, items);
      && (r.Failure? <==> exists n :: 0 <= n < |segs| && segs[n].speakerLabel == [])
      && (r.Failure? ==> r.error.segment < |segs| && segs[r.error.segment].speakerLabel == []
                          && forall n :: 0 <= n < r.error.segment ==> segs[n].speakerLabel != [])
      && (r.Success? ==> |r.value| == |segs|
                          && forall k :: 0 <= k < |segs| ==>
                               segs[k].speakerLabel != [] && r.value[k].key == k + 1
                               && r.value[k].para == ParagraphFor(segs[k], items))
  {
  }

  /** The three items of a one-segment example: "Hi", "!", "Bob". */
  function ExampleItems(): seq<Item>
  {
    [Pronunciation("Hi", 0.0, 0.5, 0.95), Punctuation("!"), Pronunciation("Bob", 0.6, 1.0, 0.4)]
  }

  lemma ExampleScan()
    ensures ScanItems(Segment("spk_0", 0.0, 2.0), ExampleItems()) == Scan(" Hi! Bob", [0.95, 0.4])
  {
    var seg, items := Segment("spk_0", 0.0, 2.0), ExampleItems();
    assert ScanItems(seg, items[2..]) == Scan(" Bob", [0.4]) by {
      assert items[2..][1..] == [];
    }
    assert ScanItems(seg, items[1..]) == Scan("! Bob", [0.4]) by {
      assert items[1..][1..] == items[2..];
    }
  }

  lemma ExampleHeader()
    ensures Header(0.0, "spk_0") == "[00:00:00] Speaker 0"
  {
    assert Timestamp(0.0) == "[00:00:00]";
  }

  /** A segment from 0 to 2 seconds with the words "Hi", "!", "Bob": the stored
      text keeps the space in front of the first word. */
  lemma SingleSegmentExample()
    ensures Reshape([Segment("spk_0", 0.0, 2.0)], ExampleItems())
         == Success([Entry(1, Paragraph("[00:00:00] Speaker 0", " Hi! Bob", [0.95, 0.4]))])
  {
    var seg, items := Segment("spk_0", 0.0, 2.0), ExampleItems();
    var p := Paragraph("[00:00:00] Speaker 0", " Hi! Bob", [0.95, 0.4]);
    ExampleScan();
    ExampleHeader();
    assert ' ' !in StripChars;
    assert ParagraphFor(seg, items) == p;
    assert FirstEmptyLabel([seg]) == 1;
    var r := Reshape([seg], items);
    assert r.Success? && |r.value| == 1 && r.value[0] == Entry(1, p);
    assert r.value == [Entry(1, p)];
  }

  /** The four items of a two-speaker example: "Hi", ".", "Bob", "?". */
  function RescanItems(): seq<Item>
  {
    [Pronunciation("Hi", 0.0, 0.5, 0.9), Punctuation("."), Pronunciation("Bob", 1.2, 1.5, 0.8), Punctuation("?")]
  }

  /** Because every scan restarts at the first item, the second speaker's segment
      (from 1 to 2 seconds) accumulates the full stop that ends the first
      speaker's "Hi"; being leading punctuation, it is stripped again from the
      stored text (`ParagraphContents`). */
  lemma RescanExample()
    ensures ScanItems(Segment("spk_1", 1.0, 2.0), RescanItems()) == Scan(". Bob?", [0.8])
  {
    var seg, items := Segment("spk_1", 1.0, 2.0), RescanItems();
    assert ScanItems(seg, items[3..]) == Scan("?", []) by {
      assert items[3..][1..] == [];
    }
    assert ScanItems(seg, items[2..]) == Scan(" Bob?", [0.8]) by {
      assert items[2..][1..] == items[3..];
    }
    assert ScanItems(seg, items[1..]) == Scan(". Bob?", [0.8]) by {
      assert items[1..][1..] == items[2..];
    }
  }

  /** A word that starts before the segment but ends exactly at its end is
      still appended to it. */
  lemma BoundaryWordExample()
    ensures ScanItems(Segment("spk_1", 1.0, 2.0), [Pronunciation("so", 0.8, 2.0, 0.7)]) == Scan(" so", [0.7])
  {
    var items := [Pronunciation("so", 0.8, 2.0, 0.7)];
    assert items[1..] == [];
  }

  /** A word ending after the segment ends the scan, even when a later word
      lies inside the segment. */
  lemma EarlyStopExample()
    ensures ScanItems(Segment("spk_1", 1.0, 2.0),
                      [Pronunciation("long", 0.0, 3.0, 0.9), Pronunciation("Bob", 1.2, 1.5, 0.8)]) == Scan([], [])
  {
  }
}
