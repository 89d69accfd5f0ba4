/** The `/generate_itinerary` handler of `backend.py`: read the five fields of the
    JSON body (an absent field is the empty string), generate and clean the itinerary,
    render it, and answer with the cleaned text and the document's path. */
module Handlers {
  import opened Wrappers
  import opened Text
  import opened Generator
  import opened Renderer

  /** A JSON object body: field name to value. */
  type Request = map<string, string>

  /** The JSON answer `{"itinerary_text": ..., "pdf_path": ...}`. */
  datatype Response = Response(itineraryText: string, pdfPath: string)

  /** Why the handler fails: the body is not a JSON object (a body that does not parse,
      which the web framework rejects before the handler's own code runs, and a parsed
      value such as `null` or a list, on which `data.get` raises), or the generation
      service call failed. */
  datatype Failure = NotAJsonObject | GenerationFailed

  datatype Outcome = Ok(response: Response) | Err(failure: Failure)

  /** `data.get(name, "")`. */
  function Field(data: Request, name: string): string {
    if name in data then data[name] else ""
  }

  /** The prompt the handler sends for the body `data`. */
  function RequestPrompt(data: Request): string {
    Prompt(Field(data, "source"), Field(data, "destination"), Field(data, "duration"),
           Field(data, "budget"), Field(data, "preferences"))
  }

  /** What `generate_itinerary_api` answers, given the body (`None` when it is not a
      JSON object) and the generation service. */
  function Respond(body: Option<Request>, service: string -> Option<string>): (r: Outcome)
    ensures body.None? ==> r == Err(NotAJsonObject)
    ensures r.Ok? ==> r.response.pdfPath == OutputPath
    ensures r.Ok? ==> NoMarkdown(r.response.itineraryText) && NoSurroundingSpace(r.response.itineraryText)
  {
    match body
    case None => Err(NotAJsonObject)
    case Some(data) =>
      match GenerateItinerary(Field(data, "source"), Field(data, "destination"),
                              Field(data, "duration"), Field(data, "budget"),
                              Field(data, "preferences"), service)
      case None => Err(GenerationFailed)
      case Some(text) => Ok(Response(text, OutputPath))
  }

  /** The handler, step by step: it renders the cleaned text with `SaveToPdf` and
      answers with the path that call returns. On success `doc` is the document written,
      which holds the plan for the lines of the text answered; on failure nothing is
      rendered and `doc` is `null`. */
  method GenerateItineraryApi(body: Option<Request>, service: string -> Option<string>)
    returns (r: Outcome, doc: Pdf?)
    ensures r == Respond(body, service)
    ensures r.Ok? <==> doc != null
    ensures r.Ok? ==> doc != null && doc.ops == RenderPlan(Split(NormalizeCurrency(r.response.itineraryText), '\n'))
  {
    doc := null;
    if body.None? {
      return Err(NotAJsonObject), doc;
    }
    var data := body.value;
    var source := Field(data, "source");
    var destination := Field(data, "destination");
    var duration := Field(data, "duration");
    var budget := Field(data, "budget");
    var preferences := Field(data, "preferences");
    var text := GenerateItinerary(source, destination, duration, budget, preferences, service);
    if text.None? {
      return Err(GenerationFailed), doc;
    }
    var pdf, path := SaveToPdf(text.value);
    r := Ok(Response(text.value, path));
    doc := pdf;
  }

  /** A JSON body succeeds exactly when the service answers the prompt built from it;
      the answer then carries the cleaned reply and the fixed path. */
  lemma RespondSpec(data: Request, service: string -> Option<string>)
    ensures Respond(Some(data), service).Ok? <==> service(RequestPrompt(data)).Some?
    ensures Respond(Some(data), service).Ok? ==>
              Respond(Some(data), service).response ==
              Response(Clean(service(RequestPrompt(data)).value), "itinerary.pdf")
    ensures service(RequestPrompt(data)).None? ==> Respond(Some(data), service) == Err(GenerationFailed)
  {
  }

  /** An absent field behaves exactly as a field given as the empty string: the same
      prompt is sent and the same answer comes back. */
  lemma AbsentFieldIsEmpty(data: Request, name: string, service: string -> Option<string>)
    requires name !in data
    ensures RequestPrompt(data) == RequestPrompt(data[name := ""])
    ensures Respond(Some(data), service) == Respond(Some(data[name := ""]), service)
  {
    var given := data[name := ""];
    assert forall k :: Field(data, k) == Field(given, k);
    assert Respond(Some(data), service) == Respond(Some(given), service);
  }

  /** The prompt sent carries every field of the body, the empty string for an absent one. */
  lemma RequestPromptCarriesFields(data: Request)
    ensures IsSubstring(Field(data, "source"), RequestPrompt(data))
    ensures IsSubstring(Field(data, "destination"), RequestPrompt(data))
    ensures IsSubstring(Field(data, "duration"), RequestPrompt(data))
    ensures IsSubstring(Field(data, "budget"), RequestPrompt(data))
    ensures IsSubstring(Field(data, "preferences"), RequestPrompt(data))
  {
    PromptEmbedsFields(Field(data, "source"), Field(data, "destination"), Field(data, "duration"),
                       Field(data, "budget"), Field(data, "preferences"));
    var d := Field(data, "duration");
    var t := d + "-day travel itinerary from ";
    var p := RequestPrompt(data);
    var i :| 0 <= i <= |p| && t <= p[i..];
    assert d <= p[i..];
  }

  /** A service reply that has no markdown mark and no surrounding whitespace is
      answered unchanged. */
  lemma RespondPlainReply(data: Request, service: string -> Option<string>, reply: string)
    requires service(RequestPrompt(data)) == Some(reply)
    requires NoMarkdown(reply) && NoSurroundingSpace(reply)
    ensures Respond(Some(data), service) == Ok(Response(reply, "itinerary.pdf"))
  {
    RespondSpec(data, service);
    CleanUnchanged(reply);
  }

  /** The reply of the end-to-end scenario, three day headers each followed by one line. */
  const ScenarioReply: string := "Day 1:\nRelax\nDay 2:\nExplore\nDay 3:\nDepart"

  /** The scenario's request. */
  const ScenarioRequest: Request :=
    map["source" := "Pune", "destination" := "Goa", "duration" := "3",
        "budget" := "15000", "preferences" := "beaches"]

  /** The request {source: "Pune", destination: "Goa", duration: "3", budget: "15000",
      preferences: "beaches"}, answered by the service with `ScenarioReply`, gets that
      text unchanged and "itinerary.pdf". */
  lemma ScenarioResponse(service: string -> Option<string>)
    requires service(RequestPrompt(ScenarioRequest)) == Some(ScenarioReply)
    ensures Respond(Some(ScenarioRequest), service) == Ok(Response(ScenarioReply, "itinerary.pdf"))
  {
    ScenarioReplyPlain();
    RespondPlainReply(ScenarioRequest, service, ScenarioReply);
  }

  /** The scenario reply has no markdown mark and no surrounding whitespace. */
  lemma ScenarioReplyPlain()
    ensures NoMarkdown(ScenarioReply) && NoSurroundingSpace(ScenarioReply)
  {
    ScenarioReplyIsJoin();
    forall x | IsMarkdownMark(x)
      ensures x !in ScenarioReply
    {
      JoinKeepsAbsent(ScenarioLines, '\n', x);
    }
    assert ScenarioReply[0] == 'D' && ScenarioReply[|ScenarioReply| - 1] == 't';
  }

  /** The scenario end to end through the handler: the answer is the reply unchanged
      with "itinerary.pdf", and the document written holds three bold day cells, each
      followed by its regular activity block. */
  method RunScenario(service: string -> Option<string>) returns (r: Outcome, doc: Pdf?)
    requires service(RequestPrompt(ScenarioRequest)) == Some(ScenarioReply)
    ensures r == Ok(Response(ScenarioReply, "itinerary.pdf"))
    ensures doc != null && doc.ops == ScenarioOps
  {
    r, doc := GenerateItineraryApi(Some(ScenarioRequest), service);
    ScenarioResponse(service);
    assert r.response.itineraryText == ScenarioReply;
    ScenarioDocument(ScenarioReply);
    ScenarioPlan();
  }

  /** Text made of newline-free lines and free of rupee signs is rendered line by line:
      the document receives exactly the plan for those lines. */
  lemma RenderJoinedLines(text: string, lines: seq<string>)
    requires |lines| >= 1 && forall k :: 0 <= k < |lines| ==> '\n' !in lines[k]
    requires text == Join(lines, '\n') && Rupee !in text
    ensures RenderPlan(Split(NormalizeCurrency(text), '\n')) == RenderPlan(lines)
  {
    ReplaceCharAbsent(text, Rupee, "Rs.");
    SplitJoin(lines, '\n');
  }

  /** What the scenario's document receives: each day in a bold cell, followed by its
      activity in a regular block. */
  const ScenarioOps: seq<RenderOp> :=
    [Cell(Bold, "Day 1:"), MultiCell(Regular, "Relax"),
     Cell(Bold, "Day 2:"), MultiCell(Regular, "Explore"),
     Cell(Bold, "Day 3:"), MultiCell(Regular, "Depart")]

  /** The lines of the scenario reply. */
  const ScenarioLines: seq<string> := ["Day 1:", "Relax", "Day 2:", "Explore", "Day 3:", "Depart"]

  /** The document rendered for `ScenarioReply` receives the plan for its six lines,
      which `ScenarioPlan` spells out: three bold day headers, each followed by its
      regular body line. */
  lemma ScenarioDocument(text: string)
    requires text == ScenarioReply
    ensures RenderPlan(Split(NormalizeCurrency(text), '\n')) == RenderPlan(ScenarioLines)
  {
    ScenarioReplyIsJoin();
    RenderJoinedLines(text, ScenarioLines);
  }

  /** The scenario reply is its six lines joined by newlines. */
  lemma ScenarioReplyIsJoin()
    ensures Join(ScenarioLines, '\n') == ScenarioReply
  {
  }

  /** The plan for the scenario's lines: days in bold cells, activities in regular blocks. */
  lemma ScenarioPlan()
    ensures RenderPlan(ScenarioLines) == ScenarioOps
  {
    var l := ScenarioLines;
    assert "Day 1:"[..4] == "Day " && "Day 2:"[..4] == "Day " && "Day 3:"[..4] == "Day ";
    assert "Relax"[0] == 'R' && "Explore"[0] == 'E' && "Depart"[2] == 'p';
    assert RenderPlan(l[5..]) == [MultiCell(Regular, "Depart")];
    assert RenderPlan(l[4..]) == [Cell(Bold, "Day 3:")] + RenderPlan(l[5..]);
    assert RenderPlan(l[3..]) == [MultiCell(Regular, "Explore")] + RenderPlan(l[4..]);
    assert RenderPlan(l[2..]) == [Cell(Bold, "Day 2:")] + RenderPlan(l[3..]);
    assert RenderPlan(l[1..]) == [MultiCell(Regular, "Relax")] + RenderPlan(l[2..]);
    assert RenderPlan(l) == [Cell(Bold, "Day 1:")] + RenderPlan(l[1..]);
  }
}
