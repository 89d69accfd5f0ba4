/** The itinerary generator of `backend.py`: the prompt built from the five request
    fields, and the cleanup of the text the generation service sends back. The service
    itself is a parameter: a function from the prompt to its reply, `None` when the
    call fails. */
module Generator {
  import opened Wrappers
  import opened Text

  /** The markdown marks the cleanup deletes. */
  predicate IsMarkdownMark(c: char) {
    c == '*' || c == '#' || c == '-'
  }

  predicate NoMarkdown(s: string) {
    '*' !in s && '#' !in s && '-' !in s
  }

  /** The cleanup as the source writes it: `*`, then `#`, then `-` replaced by the
      empty string, then the result stripped. */
  function Clean(s: string): (r: string)
    ensures NoMarkdown(r)
    ensures NoSurroundingSpace(r)
  {
    var a := Remove(s, '*');
    var b := Remove(a, '#');
    var c := Remove(b, '-');
    RemoveKeepsAbsent(a, '#', '*');
    RemoveKeepsAbsent(b, '-', '*');
    RemoveKeepsAbsent(b, '-', '#');
    StripKeepsAbsent(c, '*');
    StripKeepsAbsent(c, '#');
    StripKeepsAbsent(c, '-');
    Strip(c)
  }

  /** The independent reference: one pass over the input keeping, in order, every
      character that is not a markdown mark. */
  function KeepPlain(s: string): string {
    if s == [] then []
    else if IsMarkdownMark(s[0]) then KeepPlain(s[1..])
    else [s[0]] + KeepPlain(s[1..])
  }

  lemma {:induction false} KeepPlainSplit(a: string, b: string)
    ensures KeepPlain(a + b) == KeepPlain(a) + KeepPlain(b)
  {
    if a != [] {
      assert (a + b)[1..] == a[1..] + b;
      KeepPlainSplit(a[1..], b);
    } else {
      assert a + b == b;
    }
  }

  /** Text without markdown marks passes the filter unchanged. */
  lemma {:induction false} KeepPlainUnchanged(s: string)
    requires NoMarkdown(s)
    ensures KeepPlain(s) == s
  {
    if s != [] {
      assert NoMarkdown(s[1..]) by { assert forall k :: 0 <= k < |s[1..]| ==> s[1..][k] == s[k + 1]; }
      KeepPlainUnchanged(s[1..]);
      assert s == [s[0]] + s[1..];
    }
  }

  /** The three removals in a row are the one-pass filter. */
  lemma {:induction false} RemovalsAreKeepPlain(s: string)
    ensures Remove(Remove(Remove(s, '*'), '#'), '-') == KeepPlain(s)
  {
    if s != [] {
      RemovalsAreKeepPlain(s[1..]);
    }
  }

  /** The surviving characters keep their order: the cleaned text is the strip of
      the input with every markdown mark filtered out. */
  lemma CleanIsStrippedKeepPlain(s: string)
    ensures Clean(s) == Strip(KeepPlain(s))
  {
    RemovalsAreKeepPlain(s);
  }

  /** Text that has no markdown mark and no surrounding whitespace comes back unchanged. */
  lemma CleanUnchanged(s: string)
    requires NoMarkdown(s) && NoSurroundingSpace(s)
    ensures Clean(s) == s
  {
    RemoveAbsent(s, '*');
    RemoveAbsent(s, '#');
    RemoveAbsent(s, '-');
    StripNoSurroundingSpace(s);
  }

  /** Cleaning twice is cleaning once. */
  lemma CleanIdempotent(s: string)
    ensures Clean(Clean(s)) == Clean(s)
  {
    CleanUnchanged(Clean(s));
  }

  /** The prompt: the five fields embedded verbatim in fixed text (the f-string of
      `generate_itinerary`, as the concatenation of its literal and field pieces). */
  function Prompt(source: string, destination: string, duration: string, budget: string,
                  preferences: string): string
  {
    Concat(["Generate a detailed ", duration, "-day travel itinerary from ", source, " to ",
            destination, " with a budget of Rs. ", budget, ". Preferences: ", preferences,
            ". Format the itinerary with ", "'Day X:'",
            " followed by activities for each day. Use plain text and avoid Markdown or bullet points."])
  }

  /** The prompt holds every field as a substring, asks for a `duration`-day
      itinerary, and asks for 'Day X:' headers. */
  lemma PromptEmbedsFields(source: string, destination: string, duration: string,
                           budget: string, preferences: string)
    ensures IsSubstring(duration + "-day travel itinerary from ", Prompt(source, destination, duration, budget, preferences))
    ensures IsSubstring(source, Prompt(source, destination, duration, budget, preferences))
    ensures IsSubstring(destination, Prompt(source, destination, duration, budget, preferences))
    ensures IsSubstring(budget, Prompt(source, destination, duration, budget, preferences))
    ensures IsSubstring(preferences, Prompt(source, destination, duration, budget, preferences))
    ensures IsSubstring("'Day X:'", Prompt(source, destination, duration, budget, preferences))
  {
    var pieces := ["Generate a detailed ", duration, "-day travel itinerary from ", source, " to ",
                   destination, " with a budget of Rs. ", budget, ". Preferences: ", preferences,
                   ". Format the itinerary with ", "'Day X:'",
                   " followed by activities for each day. Use plain text and avoid Markdown or bullet points."];
    ConcatHoldsAdjacent(pieces, 1);
    ConcatHoldsPiece(pieces, 3);
    ConcatHoldsPiece(pieces, 5);
    ConcatHoldsPiece(pieces, 7);
    ConcatHoldsPiece(pieces, 9);
    ConcatHoldsPiece(pieces, 11);
  }

  /** Python `generate_itinerary`: ask the service with the prompt and clean its reply;
      a failed call propagates as `None`. */
  function GenerateItinerary(source: string, destination: string, duration: string,
                             budget: string, preferences: string,
                             service: string -> Option<string>): (r: Option<string>)
    ensures r.None? <==> service(Prompt(source, destination, duration, budget, preferences)).None?
    ensures r.Some? ==> r.value == Clean(service(Prompt(source, destination, duration, budget, preferences)).value)
    ensures r.Some? ==> NoMarkdown(r.value) && NoSurroundingSpace(r.value)
  {
    match service(Prompt(source, destination, duration, budget, preferences))
    case None => None
    case Some(text) => Some(Clean(text))
  }

  /** Markdown emphasis, list dashes and heading marks around plain words are
      dropped, and the words are kept with the spaces between them. */
  lemma CleanDropsMarkup(d: string, r: string, f: string)
    requires NoMarkdown(d) && NoMarkdown(r) && NoMarkdown(f)
    requires d != [] && !IsSpace(d[0]) && f != [] && !IsSpace(f[|f| - 1])
    ensures Clean("*" + d + "* -" + r + "- #" + f + "#") == d + " " + r + " " + f
  {
    var s := "*" + d + "* -" + r + "- #" + f + "#";
    KeepPlainUnchanged(d);
    KeepPlainUnchanged(r);
    KeepPlainUnchanged(f);
    assert KeepPlain("*") == [] && KeepPlain("#") == [];
    assert KeepPlain("* -") == " " && KeepPlain("- #") == " ";
    KeepPlainSplit("*" + d + "* -" + r + "- #" + f, "#");
    KeepPlainSplit("*" + d + "* -" + r + "- #", f);
    KeepPlainSplit("*" + d + "* -" + r, "- #");
    KeepPlainSplit("*" + d + "* -", r);
    KeepPlainSplit("*" + d, "* -");
    KeepPlainSplit("*", d);
    var t := d + " " + r + " " + f;
    assert KeepPlain(s) == t;
    assert t[0] == d[0] && t[|t| - 1] == f[|f| - 1];
    CleanIsStrippedKeepPlain(s);
    StripNoSurroundingSpace(t);
  }

  /** A plain day-by-day reply is returned unchanged. */
  lemma CleanPlainExample()
    ensures Clean("Day 1:\nRelax\nDay 2:\nExplore") == "Day 1:\nRelax\nDay 2:\nExplore"
  {
    CleanUnchanged("Day 1:\nRelax\nDay 2:\nExplore");
  }
}
