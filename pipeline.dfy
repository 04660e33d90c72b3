/** How the reshaper and the renderer fit together: when every word is a
    single whitespace-free token and punctuation is ASCII punctuation, the
    whitespace split of a stored paragraph yields exactly one word per
    confidence, so `zip` drops nothing and the runs spell out the stored text. */
module Pipeline {
  import opened Text
  import opened Reshaper
  import opened ReshaperProperties
  import opened Renderer
  import opened RendererProperties

  /** An item as the transcription service produces it: a word is one
      whitespace-free token, punctuation is made of `lstrip` punctuation. */
  predicate WellFormedItem(x: Item)
  {
    match x
    case Pronunciation(c, _, _, _) => IsWord(c)
    case Punctuation(c) => forall i :: 0 <= i < |c| ==> c[i] in StripChars
  }

  predicate WellFormed(xs: seq<Item>)
  {
    forall i :: 0 <= i < |xs| ==> WellFormedItem(xs[i])
  }

  /** The punctuation text in front of the first word of `xs`. */
  function Lead(xs: seq<Item>): string
    decreases |xs|
  {
    if xs == [] || xs[0].Pronunciation? then [] else xs[0].content + Lead(xs[1..])
  }

  /** Every word of `xs` followed by the punctuation glued to it, in order. */
  function Groups(xs: seq<Item>): seq<string>
    decreases |xs|
  {
    if xs == [] then []
    else if xs[0].Punctuation? then Groups(xs[1..])
    else [xs[0].content + Lead(xs[1..])] + Groups(xs[1..])
  }

  lemma StripCharsAreNotSpaces()
    ensures forall i :: 0 <= i < |StripChars| ==> !IsSpace(StripChars[i])
  {
    assert forall i :: 0 <= i < |StripChars| ==> '!' <= StripChars[i] <= '~';
  }

  lemma {:induction false} KeptWellFormed(seg: Segment, xs: seq<Item>)
    requires WellFormed(xs)
    ensures WellFormed(Kept(seg, xs))
    decreases |xs|
  {
    if xs != [] {
      KeptWellFormed(seg, xs[1..]);
      var head := if Appends(seg, xs[0]) then [xs[0]] else [];
      var r := head + Kept(seg, xs[1..]);
      forall i | 0 <= i < |r| ensures WellFormedItem(r[i]) {
        if i >= |head| {
          assert r[i] == Kept(seg, xs[1..])[i - |head|];
        }
      }
    }
  }

  /** The text of the items is their leading punctuation, then the groups,
      each after a space. */
  lemma {:induction false} ItemsTextShape(xs: seq<Item>)
    ensures ItemsText(xs) == Lead(xs) + Spaced(Groups(xs))
    decreases |xs|
  {
    if xs != [] {
      ItemsTextShape(xs[1..]);
      var lead, rest := Lead(xs[1..]), Spaced(Groups(xs[1..]));
      match xs[0]
      case Punctuation(c) =>
        assert c + (lead + rest) == c + lead + rest;
      case Pronunciation(c, _, _, _) =>
        var g := [c + lead] + Groups(xs[1..]);
        assert g[0] == c + lead && g[1..] == Groups(xs[1..]);
        assert " " + c + (lead + rest) == [] + (" " + (c + lead) + rest);
    }
  }

  /** The leading punctuation of well-formed items is made of `lstrip`
      punctuation. */
  lemma {:induction false} LeadIsPunctuation(xs: seq<Item>)
    requires WellFormed(xs)
    ensures forall i :: 0 <= i < |Lead(xs)| ==> Lead(xs)[i] in StripChars
    decreases |xs|
  {
    if xs != [] && xs[0].Punctuation? {
      assert WellFormedItem(xs[0]);
      LeadIsPunctuation(xs[1..]);
      var c, lead := xs[0].content, Lead(xs[1..]);
      forall i | 0 <= i < |c + lead| ensures (c + lead)[i] in StripChars {
        if i >= |c| {
          assert (c + lead)[i] == lead[i - |c|];
        }
      }
    }
  }

  /** There is one group per word. */
  lemma {:induction false} GroupsCount(xs: seq<Item>)
    ensures |Groups(xs)| == |WordsOf(xs)|
    decreases |xs|
  {
    if xs != [] {
      GroupsCount(xs[1..]);
    }
  }

  /** `w` is the beginning of `g`. */
  predicate StartsWith(g: string, w: string)
  {
    |w| <= |g| && g[..|w|] == w
  }

  /** The j-th group starts with the j-th word. */
  lemma {:induction false} GroupsFollowWords(xs: seq<Item>)
    ensures |Groups(xs)| == |WordsOf(xs)|
    ensures forall j :: 0 <= j < |Groups(xs)| ==> StartsWith(Groups(xs)[j], WordsOf(xs)[j].content)
    decreases |xs|
  {
    GroupsCount(xs);
    if xs != [] {
      GroupsFollowWords(xs[1..]);
      var x := xs[0];
      var gs1, ws1 := Groups(xs[1..]), WordsOf(xs[1..]);
      if x.Pronunciation? {
        var g := x.content + Lead(xs[1..]);
        assert StartsWith(g, x.content) by {
          assert g[..|x.content|] == x.content;
        }
        var gs, ws := [g] + gs1, [x] + ws1;
        assert Groups(xs) == gs && WordsOf(xs) == ws;
        forall j | 0 < j < |gs| ensures StartsWith(gs[j], ws[j].content) {
          assert gs[j] == gs1[j - 1] && ws[j] == ws1[j - 1];
        }
      } else {
        assert WordsOf(xs) == [] + ws1;
      }
    }
  }

  /** For well-formed items every group is one token for `split`. */
  lemma {:induction false} GroupsAreWords(xs: seq<Item>)
    requires WellFormed(xs)
    ensures forall j :: 0 <= j < |Groups(xs)| ==> IsWord(Groups(xs)[j])
    decreases |xs|
  {
    if xs != [] {
      GroupsAreWords(xs[1..]);
      var x := xs[0];
      if x.Pronunciation? {
        assert WellFormedItem(x);
        var lead := Lead(xs[1..]);
        LeadIsPunctuation(xs[1..]);
        StripCharsAreNotSpaces();
        var g := x.content + lead;
        forall i | 0 <= i < |g| ensures !IsSpace(g[i]) {
          if i >= |x.content| {
            assert g[i] == lead[i - |x.content|];
          }
        }
        var gs := [g] + Groups(xs[1..]);
        forall j | 0 <= j < |gs| ensures IsWord(gs[j]) {
          if j > 0 {
            assert gs[j] == Groups(xs[1..])[j - 1];
          }
        }
      }
    }
  }

  /** `lstrip` removes exactly the punctuation in front of the first word. */
  lemma StrippedTextIsGroups(xs: seq<Item>)
    requires WellFormed(xs)
    ensures LStrip(ItemsText(xs), StripChars) == Spaced(Groups(xs))
  {
    ItemsTextShape(xs);
    LeadIsPunctuation(xs);
    SpacedStartsUnstripped(Groups(xs));
    LStripPrefix(Lead(xs), Spaced(Groups(xs)), StripChars);
  }

  lemma SpacedStartsUnstripped(ws: seq<string>)
    ensures Spaced(ws) == [] || Spaced(ws)[0] !in StripChars
  {
    if ws != [] {
      assert Spaced(ws) == " " + ws[0] + Spaced(ws[1..]);
      assert Spaced(ws)[0] == ' ';
    }
  }

  /** The items a paragraph is built from are among the well-formed items. */
  lemma AppendedWellFormed(seg: Segment, items: seq<Item>)
    requires WellFormed(items)
    ensures WellFormed(Appended(seg, items))
  {
    var prefix := items[..StopIndex(seg, items)];
    forall i | 0 <= i < |prefix| ensures WellFormedItem(prefix[i]) {
      assert prefix[i] == items[i];
    }
    KeptWellFormed(seg, prefix);
  }

  /** For well-formed items the stored text of a paragraph is its groups,
      each after a space. */
  lemma StoredTextIsGroups(seg: Segment, items: seq<Item>)
    requires seg.speakerLabel != [] && WellFormed(items)
    ensures ParagraphFor(seg, items).text == Spaced(Groups(Appended(seg, items)))
  {
    AppendedWellFormed(seg, items);
    ScanIsAppended(seg, items);
    StrippedTextIsGroups(Appended(seg, items));
  }

  /** For well-formed items, the `split` of a stored paragraph gives exactly
      one word per confidence, the j-th starting with the j-th appended word;
      rendering it loses no word, and the runs spell out the stored text. */
  lemma ParagraphWordsAligned(seg: Segment, items: seq<Item>)
    requires seg.speakerLabel != [] && WellFormed(items)
    ensures var p := ParagraphFor(seg, items);
      var words := WordsOf(Appended(seg, items));
      && |Split(p.text)| == |p.confidences| == |words|
      && (forall j :: 0 <= j < |words| ==> StartsWith(Split(p.text)[j], words[j].content))
      && RunsText(ParagraphRuns(p.text, p.confidences)) == p.text
  {
    var app := Appended(seg, items);
    var p := ParagraphFor(seg, items);
    AppendedWellFormed(seg, items);
    StoredTextIsGroups(seg, items);
    ParagraphContents(seg, items);
    GroupsFollowWords(app);
    GroupsAreWords(app);
    SplitSpaced(Groups(app));
    ParagraphRunsText(p.text, p.confidences);
    assert Split(p.text)[..|p.confidences|] == Split(p.text);
  }
}
