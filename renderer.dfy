/** The document renderer of `backend.py` (`save_to_pdf`): the currency sign is
    rewritten, the text is split into lines, and each line is written to the document,
    day headers as a bold one-line cell and every other line as a regular wrapped
    block. The layout library is not modelled; the document is the sequence of
    writes it receives, each tagged with the font in effect when it was written. */
module Renderer {
  import opened Text

  datatype Font = Regular | Bold

  /** One write to the document: `pdf.cell` (a single-line cell) or `pdf.multi_cell`
      (a wrapped block), with the font that was set when it was issued. */
  datatype RenderOp = Cell(font: Font, line: string) | MultiCell(font: Font, line: string)

  /** The fixed file the document is written to and whose name is returned. */
  const OutputPath: string := "itinerary.pdf"

  /** The Indian rupee sign, U+20B9. */
  const Rupee: char := '\U{20B9}'

  /** `text.replace("₹", "Rs.")`. */
  function NormalizeCurrency(text: string): string {
    ReplaceChar(text, Rupee, "Rs.")
  }

  /** A day header is a line with the literal prefix "Day ". */
  predicate IsDayHeader(line: string) {
    StartsWith(line, "Day ")
  }

  /** What one iteration of the loop writes for `line`. */
  function RenderLine(line: string): RenderOp {
    if IsDayHeader(line) then Cell(Bold, line) else MultiCell(Regular, line)
  }

  /** What the whole loop writes for `lines`, in order. */
  function RenderPlan(lines: seq<string>): seq<RenderOp> {
    if lines == [] then [] else [RenderLine(lines[0])] + RenderPlan(lines[1..])
  }

  /** The document being written: the writes it has received and its current font. */
  class Pdf {
    var ops: seq<RenderOp>
    var font: Font

    /** `PDF()`, `add_page()` and `set_font("Arial", size=12)`: an empty document in
        the regular font (the page's own "Travel Itinerary" banner is not traced). */
    constructor ()
      ensures ops == [] && font == Regular
    {
      ops := [];
      font := Regular;
    }

    /** `set_font`: changes the font and writes nothing. */
    method SetFont(f: Font)
      modifies this
      ensures font == f && ops == old(ops)
    {
      font := f;
    }

    /** `cell(0, 10, line, ln=1)`: appends a single-line cell in the current font. */
    method WriteCell(line: string)
      modifies this
      ensures ops == old(ops) + [Cell(old(font), line)] && font == old(font)
    {
      ops := ops + [Cell(font, line)];
    }

    /** `multi_cell(0, 10, line)`: appends a wrapped block in the current font. */
    method WriteMultiCell(line: string)
      modifies this
      ensures ops == old(ops) + [MultiCell(old(font), line)] && font == old(font)
    {
      ops := ops + [MultiCell(font, line)];
    }
  }

  /** `save_to_pdf`: the writes the document receives are the plan for the lines of the
      normalised text, the font is regular again at the end, and the fixed path is
      returned. */
  method SaveToPdf(text: string) returns (pdf: Pdf, path: string)
    ensures fresh(pdf)
    ensures pdf.ops == RenderPlan(Split(NormalizeCurrency(text), '\n'))
    ensures pdf.font == Regular
    ensures path == OutputPath
  {
    pdf := new Pdf();
    var normalized := NormalizeCurrency(text);
    var lines := Split(normalized, '\n');
    for i := 0 to |lines|
      invariant pdf.ops == RenderPlan(lines[..i])
      invariant pdf.font == Regular
    {
      var line := lines[i];
      if IsDayHeader(line) {
        pdf.SetFont(Bold);
        pdf.WriteCell(line);
        pdf.SetFont(Regular);
      } else {
        pdf.WriteMultiCell(line);
      }
      RenderPlanSnoc(lines[..i], line);
      assert lines[..i + 1] == lines[..i] + [line];
    }
    assert lines[..|lines|] == lines;
    path := OutputPath;
  }

  /** The plan for one more line is the plan so far followed by that line's write. */
  lemma {:induction false} RenderPlanSnoc(lines: seq<string>, line: string)
    ensures RenderPlan(lines + [line]) == RenderPlan(lines) + [RenderLine(line)]
  {
    if lines != [] {
      assert (lines + [line])[1..] == lines[1..] + [line];
      RenderPlanSnoc(lines[1..], line);
    }
  }

  /** One write per line, in order, carrying the line unchanged; a write is a bold cell
      exactly when its line is a day header, and a regular block otherwise. */
  lemma {:induction false} RenderPlanAt(lines: seq<string>, k: nat)
    requires k < |lines|
    ensures |RenderPlan(lines)| == |lines|
    ensures RenderPlan(lines)[k].line == lines[k]
    ensures RenderPlan(lines)[k].Cell? <==> IsDayHeader(lines[k])
    ensures RenderPlan(lines)[k].font == (if IsDayHeader(lines[k]) then Bold else Regular)
  {
    if k > 0 {
      RenderPlanAt(lines[1..], k - 1);
    } else {
      RenderPlanLength(lines);
    }
  }

  lemma {:induction false} RenderPlanLength(lines: seq<string>)
    ensures |RenderPlan(lines)| == |lines|
  {
    if lines != [] {
      RenderPlanLength(lines[1..]);
    }
  }

  /** The document receives one write per newline of the text, plus one. */
  lemma RenderCount(text: string)
    ensures |RenderPlan(Split(NormalizeCurrency(text), '\n'))| == Count(text, '\n') + 1
  {
    RenderPlanLength(Split(NormalizeCurrency(text), '\n'));
    ReplaceCharCount(text, Rupee, "Rs.", '\n');
    assert Count("Rs.", '\n') == 0;
  }

  /** Every rupee sign becomes "Rs.", none is left, the length grows by two for each,
      and every other character is kept: its count grows only by what the "Rs." pieces
      add. Text without a rupee sign is left as it is. */
  lemma NormalizeCurrencySpec(text: string, x: char)
    requires x != Rupee
    ensures Rupee !in NormalizeCurrency(text)
    ensures |NormalizeCurrency(text)| == |text| + 2 * Count(text, Rupee)
    ensures Count(NormalizeCurrency(text), x) == Count(text, x) + Count(text, Rupee) * Count("Rs.", x)
    ensures Rupee !in text ==> NormalizeCurrency(text) == text
  {
    ReplaceCharLength(text, Rupee, "Rs.");
    ReplaceCharCount(text, Rupee, "Rs.", x);
    if Rupee !in text {
      ReplaceCharAbsent(text, Rupee, "Rs.");
    }
  }

  /** Normalisation distributes over concatenation: each character is rewritten on its own. */
  lemma NormalizeCurrencyConcat(a: string, b: string)
    ensures NormalizeCurrency(a + b) == NormalizeCurrency(a) + NormalizeCurrency(b)
  {
    ReplaceCharConcat(a, b, Rupee, "Rs.");
  }

  /** "Day 3: museum visit" is a day header; "Daydreaming is not a day header" is not. */
  lemma DayHeaderExamples()
    ensures IsDayHeader("Day 3: museum visit")
    ensures !IsDayHeader("Daydreaming is not a day header")
  {
    assert "Daydreaming is not a day header"[3] == 'd';
  }
}
