/** The three kinds of per-user document and the JSON main.py writes for them. The decoders accept
    exactly what the encoders write, so every stored file reads back as the value that was saved. */
module Records {
  import opened Wrappers
  import opened Json

  // ----- chat history: a list of {"질문": question, "답변": answer} -----

  datatype ChatTurn = ChatTurn(question: string, answer: string)

  const QuestionKey: string := "질문"
  const AnswerKey: string := "답변"

  function EncodeChatTurn(c: ChatTurn): Value {
    Obj(map[QuestionKey := Str(c.question), AnswerKey := Str(c.answer)])
  }

  function DecodeChatTurn(v: Value): Option<ChatTurn> {
    if v.Obj? && v.fields.Keys == {QuestionKey, AnswerKey}
       && v.fields[QuestionKey].Str? && v.fields[AnswerKey].Str?
    then Some(ChatTurn(v.fields[QuestionKey].s, v.fields[AnswerKey].s))
    else None
  }

  lemma ChatTurnRoundTrip(c: ChatTurn)
    ensures DecodeChatTurn(EncodeChatTurn(c)) == Some(c)
  {
    assert QuestionKey != AnswerKey by { assert QuestionKey[0] != AnswerKey[0]; }
  }

  lemma ChatTurnDecodesOnlyEncodings(v: Value, c: ChatTurn)
    requires DecodeChatTurn(v) == Some(c)
    ensures EncodeChatTurn(c) == v
  {
    assert v.fields == map[QuestionKey := Str(c.question), AnswerKey := Str(c.answer)];
  }

  function EncodeChat(history: seq<ChatTurn>): Value {
    EncodeList(history, EncodeChatTurn)
  }

  function DecodeChat(v: Value): Option<seq<ChatTurn>> {
    DecodeList(v, DecodeChatTurn)
  }

  /** A saved chat history loads back unchanged, and a file that loads was written by a save. */
  lemma ChatRoundTrip(history: seq<ChatTurn>, v: Value)
    ensures DecodeChat(EncodeChat(history)) == Some(history)
    ensures DecodeChat(v).Some? ==> EncodeChat(DecodeChat(v).value) == v
  {
    forall c: ChatTurn ensures DecodeChatTurn(EncodeChatTurn(c)) == Some(c) {
      ChatTurnRoundTrip(c);
    }
    DecodeEncodeList(history, EncodeChatTurn, DecodeChatTurn);
    if DecodeChat(v).Some? {
      forall w: Value, c: ChatTurn | DecodeChatTurn(w) == Some(c) ensures EncodeChatTurn(c) == w {
        ChatTurnDecodesOnlyEncodings(w, c);
      }
      EncodeDecodeList(v, EncodeChatTurn, DecodeChatTurn);
    }
  }

  // ----- schedules: a list of {"date": ..., "time": ..., "event": ...} -----

  datatype ScheduleEntry = ScheduleEntry(date: string, time: string, event: string)

  function EncodeEntry(e: ScheduleEntry): Value {
    Obj(map["date" := Str(e.date), "time" := Str(e.time), "event" := Str(e.event)])
  }

  function DecodeEntry(v: Value): Option<ScheduleEntry> {
    if v.Obj? && v.fields.Keys == {"date", "time", "event"}
       && v.fields["date"].Str? && v.fields["time"].Str? && v.fields["event"].Str?
    then Some(ScheduleEntry(v.fields["date"].s, v.fields["time"].s, v.fields["event"].s))
    else None
  }

  lemma EntryRoundTrip(e: ScheduleEntry)
    ensures DecodeEntry(EncodeEntry(e)) == Some(e)
  {
    assert "date"[0] != "time"[0] && "time"[0] != "event"[0] && "date"[0] != "event"[0];
  }

  lemma EntryDecodesOnlyEncodings(v: Value, e: ScheduleEntry)
    requires DecodeEntry(v) == Some(e)
    ensures EncodeEntry(e) == v
  {
    assert v.fields == map["date" := Str(e.date), "time" := Str(e.time), "event" := Str(e.event)];
  }

  function EncodeSchedules(entries: seq<ScheduleEntry>): Value {
    EncodeList(entries, EncodeEntry)
  }

  function DecodeSchedules(v: Value): Option<seq<ScheduleEntry>> {
    DecodeList(v, DecodeEntry)
  }

  /** A saved schedule list loads back unchanged, and a file that loads was written by a save. */
  lemma SchedulesRoundTrip(entries: seq<ScheduleEntry>, v: Value)
    ensures DecodeSchedules(EncodeSchedules(entries)) == Some(entries)
    ensures DecodeSchedules(v).Some? ==> EncodeSchedules(DecodeSchedules(v).value) == v
  {
    forall e: ScheduleEntry ensures DecodeEntry(EncodeEntry(e)) == Some(e) {
      EntryRoundTrip(e);
    }
    DecodeEncodeList(entries, EncodeEntry, DecodeEntry);
    if DecodeSchedules(v).Some? {
      forall w: Value, e: ScheduleEntry | DecodeEntry(w) == Some(e) ensures EncodeEntry(e) == w {
        EntryDecodesOnlyEncodings(w, e);
      }
      EncodeDecodeList(v, EncodeEntry, DecodeEntry);
    }
  }

  // ----- the AI persona: {} or exactly {"tone", "mind", "focus_areas", "temperature"} -----

  datatype PersonaSettings =
    | NoPersona
    | Persona(tone: string, mind: string, focusAreas: string, temperature: real)

  function EncodePersona(p: PersonaSettings): Value {
    match p
    case NoPersona => Obj(map[])
    case Persona(tone, mind, focusAreas, temperature) =>
      Obj(map["tone" := Str(tone), "mind" := Str(mind), "focus_areas" := Str(focusAreas),
              "temperature" := Num(temperature)])
  }

  function DecodePersona(v: Value): Option<PersonaSettings> {
    if v == Obj(map[]) then Some(NoPersona)
    else if v.Obj? && v.fields.Keys == {"tone", "mind", "focus_areas", "temperature"}
       && v.fields["tone"].Str? && v.fields["mind"].Str? && v.fields["focus_areas"].Str?
       && v.fields["temperature"].Num?
    then Some(Persona(v.fields["tone"].s, v.fields["mind"].s, v.fields["focus_areas"].s,
                      v.fields["temperature"].n))
    else None
  }

  /** Saved settings load back unchanged, and a file that loads was written by a save. */
  lemma PersonaRoundTrip(p: PersonaSettings, v: Value)
    ensures DecodePersona(EncodePersona(p)) == Some(p)
    ensures DecodePersona(v).Some? ==> EncodePersona(DecodePersona(v).value) == v
  {
    assert "tone"[0] != "mind"[0] && "tone"[0] != "focus_areas"[0] && "tone"[1] != "temperature"[1];
    assert "mind"[0] != "focus_areas"[0] && "mind"[0] != "temperature"[0];
    assert "focus_areas"[0] != "temperature"[0];
    if p.Persona? {
      assert "tone" in EncodePersona(p).fields;
    }
    if DecodePersona(v).Some? && v != Obj(map[]) {
      var q := DecodePersona(v).value;
      assert v.fields == EncodePersona(q).fields;
    }
  }
}
