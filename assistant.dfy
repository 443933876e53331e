/** The stateful part of app21.py: the three module globals `hotel_memory`,
    `last_searched_hotel_id` and `conversation_history`, and the operations that
    change them — the index rebuild of `get_hotels`, the focus update of
    `get_rate_plan`, and the annotate / record / clean glue of `ask_question`. */
module Assistant {
  import opened Wrappers
  import opened Text
  import opened HotelIndex
  import opened Patterns
  import opened Resolver
  import opened Dates

  /** `HumanMessage` / `AIMessage` in the conversation history. */
  datatype Turn = Human(text: string) | AI(text: string)

  /** What `get_hotels` returns: `{"status": True, "total_hotels": ..., "hotels": ...}`
      or `{"status": False, "message": "No hotels found", "hotels": []}`. */
  datatype SearchResult = Found(totalHotels: nat, hotels: seq<RawHotel>) | NoHotels

  /** What `get_rate_plan` returns: the validation error, or the request it hands to
      the rate-plan endpoint (whose response is passed through and not modelled). */
  datatype RatePlanResult = DateError(error: string) | RateRequest(hotelId: nat, checkIn: string, checkOut: string)

  const DateErrorText: string := "Dates must be in YYYY-MM-DD format"

  /** The content of the engine's last message: a plain string, or a list of parts of which
      only the dicts with `"type": "text"` contribute (a missing `"text"` is ""). `repr` is
      `str(content)`, used when no text part was found. */
  datatype Part = TextPart(text: string) | OtherPart
  datatype Content = Plain(text: string) | Parts(items: seq<Part>, repr: string)

  /** The outcome of `agent.invoke`: an exception, a dict with messages, or any other object. */
  datatype EngineReply = Raised(error: string) | Messages(last: Content) | OtherObject(repr: string)

  /** The parts' texts, each followed by a space, in order. */
  function JoinText(items: seq<Part>): string {
    if items == [] then []
    else
      var last := items[|items| - 1];
      JoinText(items[..|items| - 1]) + (if last.TextPart? then last.text + " " else [])
  }

  /** No text part contributes nothing, and any text part contributes at least its space. */
  lemma {:induction false} JoinTextEmpty(items: seq<Part>)
    ensures JoinText(items) == [] <==> forall i :: 0 <= i < |items| ==> !items[i].TextPart?
  {
    if items != [] {
      var init := items[..|items| - 1];
      JoinTextEmpty(init);
      assert forall i :: 0 <= i < |init| ==> init[i] == items[i];
    }
  }

  /** `text_output` after the extraction branch of `ask_question`. */
  function ContentText(c: Content): string {
    match c
    case Plain(t) => t
    case Parts(items, repr) => var joined := JoinText(items); if joined != [] then Strip(joined) else repr
  }

  function ReplyText(reply: EngineReply): string {
    match reply
    case Raised(e) => "Sorry, error occurred: " + e
    case Messages(c) => ContentText(c)
    case OtherObject(repr) => repr
  }

  /** The extraction loop over the parts of the last message. */
  method ExtractText(c: Content) returns (text: string)
    ensures text == ContentText(c)
  {
    match c
    case Plain(t) =>
      text := t;
    case Parts(items, repr) =>
      text := "";
      for i := 0 to |items|
        invariant text == JoinText(items[..i])
      {
        assert items[..i + 1][..i] == items[..i];
        if items[i].TextPart? {
          text := text + items[i].text + " ";
        }
      }
      assert items[..|items|] == items;
      text := if text != [] then Strip(text) else repr;
  }

  /** An entry that can name the hotel in the debug line: same id, a key without
      "option" and not all digits. */
  predicate NamesHotel(e: Entry, id: nat) {
    e.rec.id == id && !Contains(e.key, "option") && !IsDigitString(e.key)
  }

  /** The display-name lookup of `ask_question`: the full name of the first naming entry,
      or "this hotel". */
  method DisplayName(m: Index, id: nat) returns (name: string)
    ensures (forall i :: 0 <= i < |m| ==> !NamesHotel(m[i], id)) ==> name == "this hotel"
    ensures forall i :: 0 <= i < |m| && NamesHotel(m[i], id) && (forall j :: 0 <= j < i ==> !NamesHotel(m[j], id))
              ==> name == m[i].rec.fullName
  {
    name := "this hotel";
    var i := 0;
    while i < |m|
      invariant 0 <= i <= |m|
      invariant forall j :: 0 <= j < i ==> !NamesHotel(m[j], id)
      invariant name == "this hotel"
    {
      if NamesHotel(m[i], id) {
        name := m[i].rec.fullName;
        return;
      }
      i := i + 1;
    }
  }

  /** What `ask_question` returns: the error message as is, any other text cleaned. */
  function AskAnswer(reply: EngineReply): string {
    if reply.Raised? then ReplyText(reply) else CleanAnswer(ReplyText(reply))
  }

  /** The question as recorded in the history: with the hidden marker when an id was resolved. */
  function Recorded(question: string, resolved: Option<nat>): string {
    if Truthy(resolved) then question + Annotation(resolved.value) else question
  }

  /** The marker appended to the recorded question vanishes when that text is cleaned. */
  lemma RecordedCleans(question: string, resolved: Option<nat>)
    ensures CleanAnswer(Recorded(question, resolved)) == CleanAnswer(question)
    ensures Recorded(question, resolved) == question <==> !Truthy(resolved)
  {
    if Truthy(resolved) {
      AnnotationRoundTrip(question, resolved.value);
      assert |Recorded(question, resolved)| > |question|;
    }
  }

  /** The module globals of app21.py. */
  class Memory {
    var index: Index
    var focus: Option<nat>
    var history: seq<Turn>

    /** The memory is a dict: no key occurs twice. */
    predicate Valid()
      reads this
    {
      DistinctKeys(index)
    }

    /** The state at import time: an empty dict, `None` and an empty list. */
    constructor ()
      ensures index == [] && focus == None && history == []
      ensures Valid()
    {
      index := [];
      focus := None;
      history := [];
    }

    /** `get_hotels` after its pagination loop has accumulated `allHotels`. */
    method GetHotels(allHotels: seq<RawHotel>) returns (r: SearchResult)
      modifies this`index, this`focus
      ensures allHotels == [] ==> r == NoHotels && index == old(index) && focus == old(focus)
      ensures allHotels != [] ==> index == Fill(allHotels) && focus == allHotels[0].id
      ensures allHotels != [] ==> r == Found(|allHotels|, if |allHotels| <= 5 then allHotels else allHotels[..5])
      ensures allHotels != [] ==> Valid()
      ensures old(Valid()) ==> Valid()
    {
      if allHotels == [] {
        return NoHotels;
      }
      index := [];
      for idx := 1 to |allHotels| + 1
        invariant index == Fill(allHotels[..idx - 1])
      {
        assert allHotels[..idx][..idx - 1] == allHotels[..idx - 1];
        var hotel := allHotels[idx - 1];
        var name := Strip(hotel.name);
        if name != [] && Truthy(hotel.id) {
          var rec := Record(hotel.id.value, name);
          index := Put(index, Lower(name), rec);
          index := Put(index, OptionKey(idx), rec);
          index := Put(index, PositionKey(idx), rec);
          var firstWord := Lower(FirstWord(name));
          if !HasKey(index, firstWord) {
            index := Put(index, firstWord, rec);
          }
        }
      }
      assert allHotels[..|allHotels|] == allHotels;
      FillDistinct(allHotels);
      focus := allHotels[0].id;
      r := Found(|allHotels|, if |allHotels| <= 5 then allHotels else allHotels[..5]);
    }

    /** `get_rate_plan` up to the remote call: the focus moves only when both dates parse. */
    method GetRatePlan(id: nat, checkIn: string, checkOut: string) returns (r: RatePlanResult)
      modifies this`focus
      ensures ValidDate(checkIn) && ValidDate(checkOut) ==> focus == Some(id) && r == RateRequest(id, checkIn, checkOut)
      ensures !(ValidDate(checkIn) && ValidDate(checkOut)) ==> focus == old(focus) && r == DateError(DateErrorText)
    {
      if !ValidDate(checkIn) || !ValidDate(checkOut) {
        return DateError(DateErrorText);
      }
      focus := Some(id);
      r := RateRequest(id, checkIn, checkOut);
    }

    /** `ask_question`: resolve, annotate, record the question, record the engine's text
      (or the error message), and return the text with every marker removed and trimmed. */
    method Ask(question: string, reply: EngineReply) returns (answer: string)
      modifies this`history
      ensures history == old(history) + [Human(Recorded(question, Resolve(question, index, focus))), AI(ReplyText(reply))]
      ensures answer == AskAnswer(reply)
    {
      var resolved := Resolve(question, index, focus);
      if Truthy(resolved) {
        // The display name only feeds a debug line.
        var hotelName := DisplayName(index, resolved.value);
      }
      history := history + [Human(Recorded(question, resolved))];
      answer := RecordReply(reply);
    }

    /** The `try` block of `ask_question` after the question is recorded: the engine's
        turn is recorded uncleaned and the answer cleaned, or, when the engine raised,
        the apology is recorded and returned as it is. */
    method RecordReply(reply: EngineReply) returns (answer: string)
      modifies this`history
      ensures history == old(history) + [AI(ReplyText(reply))]
      ensures answer == AskAnswer(reply)
    {
      match reply
      case Raised(e) =>
        var errorMsg := "Sorry, error occurred: " + e;
        history := history + [AI(errorMsg)];
        answer := errorMsg;
      case Messages(c) =>
        var text := ExtractText(c);
        history := history + [AI(text)];
        answer := CleanAnswer(text);
      case OtherObject(repr) =>
        history := history + [AI(repr)];
        answer := CleanAnswer(repr);
    }
  }
}
