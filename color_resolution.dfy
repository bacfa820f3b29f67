/*
 * How the analyser resolves each colour of a brand palette, and how it picks
 * its agent by document type (agent.py).
 *
 * In the source the per-colour rule is not code: it is the instruction text
 * the language model is given, one text for PDFs with selectable text and one
 * for scanned PDFs read by OCR. This module states that rule as a function of
 * what was found for one colour: a hex token, a CMYK string, both or neither.
 * Locating the palette section and the tokens inside it is left to the model
 * and is not part of this module.
 */
module ColorResolution {
  import opened CmykConversion

  datatype Option<T> = None | Some(value: T)

  // ---------------------------------------------------------------------------
  // Choosing the agent
  // ---------------------------------------------------------------------------

  /** The instruction an agent runs under: the one for text PDFs or the one for image PDFs. */
  datatype Policy = CleanText | NoisyText

  /** The three tools of the source. */
  datatype Tool = AnalyzeTextPdf | AnalyzeImagePdfOcr | ConvertCmyk

  datatype AgentSetup = AgentSetup(policy: Policy, tools: seq<Tool>)

  /**
   * The specialisation step: the answer "texto" gets the text instruction with
   * the direct extractor; every other answer gets the image instruction with
   * the OCR extractor. Both agents get the converter.
   */
  function SelectAgent(pdfKind: string): (a: AgentSetup)
    ensures |a.tools| == 2 && ConvertCmyk in a.tools
    ensures a.policy == CleanText <==> pdfKind == "texto"
    ensures AnalyzeTextPdf in a.tools <==> pdfKind == "texto"
    ensures AnalyzeImagePdfOcr in a.tools <==> pdfKind != "texto"
  {
    if pdfKind == "texto" then AgentSetup(CleanText, [AnalyzeTextPdf, ConvertCmyk])
    else AgentSetup(NoisyText, [AnalyzeImagePdfOcr, ConvertCmyk])
  }

  /** The two instructions pair each extractor with its own policy, and no agent has both extractors. */
  lemma ExtractorMatchesPolicy(pdfKind: string)
    ensures var a := SelectAgent(pdfKind);
            (AnalyzeTextPdf in a.tools <==> a.policy == CleanText) &&
            (AnalyzeImagePdfOcr in a.tools <==> a.policy == NoisyText) &&
            !(AnalyzeTextPdf in a.tools && AnalyzeImagePdfOcr in a.tools)
  {
  }

  // ---------------------------------------------------------------------------
  // Resolving one colour
  // ---------------------------------------------------------------------------

  /** A hex token is complete when it is '#' followed by exactly six characters. */
  predicate IsCompleteHex(token: string) {
    |token| == 7 && token[0] == '#'
  }

  /** What the report says for "not found". */
  const NotFoundText: string := "Não encontrado"

  /**
   * The outcome for one colour: the hex token as found, the converter's answer
   * on the CMYK string, dropped from the report, or reported as not found.
   */
  datatype Resolution = Verbatim(hex: string) | ViaCmyk(conversion: Conversion) | Omitted | NotFound
  {
    /** What the report shows for a colour that is reported. */
    function Text(): string
      requires !Omitted?
    {
      match this
      case Verbatim(hex) => hex
      case ViaCmyk(conversion) => conversion.Text()
      case NotFound => NotFoundText
    }
  }

  /**
   * One colour of the palette under `policy`. A complete hex token is used as
   * found. Otherwise, and in particular when the token is incomplete or
   * corrupted, the CMYK string goes to the converter. With neither, the text
   * instruction reports only what it found, so the colour is dropped, while
   * the image instruction reports it as not found.
   */
  function Resolve(policy: Policy, hexToken: Option<string>, cmyk: Option<string>): (r: Resolution)
    ensures r.Verbatim? <==> hexToken.Some? && IsCompleteHex(hexToken.value)
    ensures r.Verbatim? ==> r.hex == hexToken.value
    ensures r.ViaCmyk? <==> !r.Verbatim? && cmyk.Some?
    ensures r.ViaCmyk? ==> r.conversion == ConvertCmykToHex(cmyk.value)
    ensures r.Omitted? <==> !r.Verbatim? && cmyk.None? && policy == CleanText
    ensures r.NotFound? <==> !r.Verbatim? && cmyk.None? && policy == NoisyText
  {
    if hexToken.Some? && IsCompleteHex(hexToken.value) then Verbatim(hexToken.value)
    else if cmyk.Some? then ViaCmyk(ConvertCmykToHex(cmyk.value))
    else if policy.CleanText? then Omitted
    else assert policy.NoisyText?; NotFound
  }

  /** An incomplete hex token is never guessed at or repaired: it counts as if absent. */
  lemma IncompleteHexIgnored(policy: Policy, token: string, cmyk: Option<string>)
    requires !IsCompleteHex(token)
    ensures Resolve(policy, Some(token), cmyk) == Resolve(policy, None, cmyk)
  {
  }

  /**
   * Both instructions trust a complete hex token over a CMYK string, and
   * differ only in what they report for a colour with neither.
   */
  lemma PoliciesDifferOnlyWhenNothingFound(hexToken: Option<string>, cmyk: Option<string>)
    ensures Resolve(CleanText, hexToken, cmyk) != Resolve(NoisyText, hexToken, cmyk)
            <==> !(hexToken.Some? && IsCompleteHex(hexToken.value)) && cmyk.None?
  {
  }

  /**
   * Nothing is invented: what the report shows for a colour is the complete
   * token as found, the converter's answer on the colour's own CMYK string, or
   * "Não encontrado".
   */
  lemma ReportedTextHasASource(policy: Policy, hexToken: Option<string>, cmyk: Option<string>)
    requires !Resolve(policy, hexToken, cmyk).Omitted?
    ensures var t := Resolve(policy, hexToken, cmyk).Text();
            || (hexToken.Some? && IsCompleteHex(hexToken.value) && t == hexToken.value)
            || (cmyk.Some? && t == ConvertCmykToHex(cmyk.value).Text())
            || (policy == NoisyText && t == NotFoundText)
  {
  }

  /**
   * A colour resolved through a CMYK string whose four components are in
   * 0..100 is reported as "#rrggbb" with lower-case hex digits, which the
   * instruction then accepts as a complete token.
   */
  lemma ConvertedColourIsComplete(policy: Policy, hexToken: Option<string>, s: string)
    requires !(hexToken.Some? && IsCompleteHex(hexToken.value))
    requires |Components(s)| == 4 && forall i :: 0 <= i < 4 ==> Components(s)[i] <= 100
    ensures var t := Resolve(policy, hexToken, Some(s)).Text();
            IsHexColour(t) && IsCompleteHex(t)
  {
    InRangeConversion(s);
  }

  // ---------------------------------------------------------------------------
  // Resolving a palette
  // ---------------------------------------------------------------------------

  /** What was found in the palette section for one colour. */
  datatype ColourMention = ColourMention(name: string, hexToken: Option<string>, cmyk: Option<string>)

  /** One line of the report's palette. */
  datatype ColourEntry = ColourEntry(name: string, value: string)

  function ResolveMention(policy: Policy, c: ColourMention): Resolution {
    Resolve(policy, c.hexToken, c.cmyk)
  }

  /** Every colour identified in the palette, in order, each resolved on its own. */
  function ResolvePalette(policy: Policy, mentions: seq<ColourMention>): (entries: seq<ColourEntry>)
    ensures |entries| <= |mentions|
    ensures policy == NoisyText ==> |entries| == |mentions|
    ensures policy == NoisyText ==> forall i :: 0 <= i < |mentions| ==>
              entries[i] == ColourEntry(mentions[i].name, ResolveMention(policy, mentions[i]).Text())
  {
    if mentions == [] then []
    else
      var r := ResolveMention(policy, mentions[0]);
      var rest := ResolvePalette(policy, mentions[1..]);
      if r.Omitted? then rest else [ColourEntry(mentions[0].name, r.Text())] + rest
  }

  /**
   * Under the text instruction the palette is what the image instruction
   * reports for the resolvable colours alone: the colours with neither a
   * complete token nor a CMYK string are dropped, and the others keep their
   * order and their values.
   */
  lemma {:induction false} CleanPaletteKeepsResolved(mentions: seq<ColourMention>)
    ensures ResolvePalette(CleanText, mentions) == ResolvePalette(NoisyText, Resolved(mentions))
    decreases |mentions|
  {
    if mentions != [] {
      var m, rest := mentions[0], mentions[1..];
      CleanPaletteKeepsResolved(rest);
      if !ResolveMention(CleanText, m).Omitted? {
        var kept := [m] + Resolved(rest);
        assert kept[0] == m && kept[1..] == Resolved(rest);
        assert ResolveMention(CleanText, m) == ResolveMention(NoisyText, m);
      }
    }
  }

  /** Under the text instruction no colour of the palette reads "Não encontrado". */
  lemma {:induction false} CleanPaletteNeverNotFound(mentions: seq<ColourMention>)
    ensures forall j :: 0 <= j < |ResolvePalette(CleanText, mentions)| ==> ResolvePalette(CleanText, mentions)[j].value != NotFoundText
    decreases |mentions|
  {
    if mentions != [] {
      var m := mentions[0];
      CleanPaletteNeverNotFound(mentions[1..]);
      var r := ResolveMention(CleanText, m);
      if r.ViaCmyk? {
        ConversionIsNotNotFound(m.cmyk.value);
      }
    }
  }

  /** The mentions the text instruction resolves: those with a complete hex token or a CMYK string. */
  function Resolved(mentions: seq<ColourMention>): (kept: seq<ColourMention>)
    ensures forall j :: 0 <= j < |kept| ==> !ResolveMention(CleanText, kept[j]).Omitted? && kept[j] in mentions
    ensures forall m :: m in mentions && !ResolveMention(CleanText, m).Omitted? ==> m in kept
  {
    if mentions == [] then []
    else if ResolveMention(CleanText, mentions[0]).Omitted? then Resolved(mentions[1..])
    else [mentions[0]] + Resolved(mentions[1..])
  }

  /** Filtering keeps order: the kept mentions of two stretches are the kept mentions of each, one after the other. */
  lemma {:induction false} ResolvedAppend(a: seq<ColourMention>, b: seq<ColourMention>)
    ensures Resolved(a + b) == Resolved(a) + Resolved(b)
    decreases |a|
  {
    if a == [] {
      assert a + b == b;
    } else {
      assert (a + b)[0] == a[0];
      assert (a + b)[1..] == a[1..] + b;
      ResolvedAppend(a[1..], b);
    }
  }

  /** The converter's answer never reads "Não encontrado". */
  lemma ConversionIsNotNotFound(s: string)
    ensures ConvertCmykToHex(s).Text() != NotFoundText
  {
    var t := ConvertCmykToHex(s).Text();
    if ConvertCmykToHex(s).Hex? {
      assert t[0] == '#';
    } else {
      assert t[0] == 'F';
    }
  }

  // ---------------------------------------------------------------------------
  // The examples of the instruction texts
  // ---------------------------------------------------------------------------

  /** The layout "CMYK(c,m,y,k)". */
  const TupleLayout := Layout("CMYK(", ",", ",", ",", ")")

  lemma TupleSpelled()
    ensures TupleLayout.Valid() && Spell(TupleLayout, 10, 20, 30, 40) == "CMYK(10,20,30,40)"
  {
    assert DecimalString(10) == "10" && DecimalString(20) == "20";
    assert DecimalString(30) == "30" && DecimalString(40) == "40";
  }

  lemma ConvertTenTwentyThirtyForty(s: string)
    requires Components(s) == [10, 20, 30, 40]
    ensures ConvertCmykToHex(s) == Hex("#897a6b")
  {
    assert Channel(10, 40) == 137 && Channel(20, 40) == 122 && Channel(30, 40) == 107;
    assert Format02x(137) == "89" && Format02x(122) == "7a" && Format02x(107) == "6b";
  }

  /**
   * On OCR text, the corrupted tokens "#1A2B", "#FFF" and "#1234F" are dropped
   * and "CMYK(10,20,30,40)" is converted instead.
   */
  lemma CorruptedHexFallsBackToCmyk()
    ensures Resolve(NoisyText, Some("#1A2B"), Some("CMYK(10,20,30,40)")) == ViaCmyk(Hex("#897a6b"))
    ensures Resolve(NoisyText, Some("#FFF"), Some("CMYK(10,20,30,40)")) == ViaCmyk(Hex("#897a6b"))
    ensures Resolve(NoisyText, Some("#1234F"), Some("CMYK(10,20,30,40)")) == ViaCmyk(Hex("#897a6b"))
  {
    TupleSpelled();
    SpellRoundTrip(TupleLayout, 10, 20, 30, 40);
    ConvertTenTwentyThirtyForty(Spell(TupleLayout, 10, 20, 30, 40));
  }

  /** A complete token is used as found, with its case unchanged, under either instruction and without CMYK. */
  lemma CompleteHexUsedAsFound()
    ensures Resolve(NoisyText, Some("#1A2B3C"), None) == Verbatim("#1A2B3C")
    ensures Resolve(CleanText, Some("#1A2B3C"), Some("CMYK(10,20,30,40)")) == Verbatim("#1A2B3C")
  {
  }
}
