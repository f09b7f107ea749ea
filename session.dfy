/** st.session_state and the handlers of main.py that update it and the files: the start of every
    run (main.py:143-160), login and signup (main.py:166-213) and the actions of app_main
    (main.py:239-512). The language model is a parameter `llm(system, user, temperature,
    maxTokens)`. */
module Session {
  import opened Json
  import opened Text
  import opened Clock
  import opened Store
  import opened Records
  import opened Credentials
  import opened Prompt
  import opened UserData
  import opened Schedule

  /** The chat completion service: system message, user message, temperature, token limit. */
  type Llm = (string, string, real, nat) -> string

  const PasswordMismatch: string := "비밀번호가 일치하지 않습니다."
  const MissingFields: string := "아이디와 비밀번호를 모두 입력하세요."
  const SummaryRequest: string := "아래 문서를 간결하게 3~4문장으로 요약해 주세요."

  const AnalysisInstruction: string :=
    "이 일정을 바탕으로 주요 내용을 3-4문장으로 요약하고, 특이사항이나 중요한 패턴이 있다면 분석하여 알려줘."
  const RecommendationInstruction: string :=
    "이것을 바탕으로 다음 주(오늘 기준 7일 이내) 추천 일정을 2~3개 제안해줘. 추천하는 일정은 간단한 활동(예: 산책, 독서, 휴식 등)이 좋고, 날짜와 시간도 구체적으로 포함해서 작성해줘."

  /** The user message asking for an analysis of the schedule text (main.py:448). */
  function AnalysisRequest(scheduleText: string): string {
    "내 일정 목록:\n" + scheduleText + "\n\n" + AnalysisInstruction
  }

  /** The user message asking for next week's suggestions (main.py:457). */
  function RecommendationRequest(scheduleText: string): string {
    "내 기존 일정 목록:\n" + scheduleText + "\n\n" + RecommendationInstruction
  }

  /** call_groq_api: the persona is read from the user's file, not from the session. */
  function Ask(llm: Llm, files: map<string, Value>, username: string, userMsg: string,
               docSummary: string, maxTokens: nat): string
    requires UserFilesDecode(files, username)
  {
    var p := LoadPersona(files, username);
    llm(SystemMessage(p, docSummary), userMsg, Temperature(p), maxTokens)
  }

  /** `text[:3000]`. */
  function Truncated(text: string): (r: string)
    ensures |r| <= |text| && r == text[..|r|]
    ensures |r| == if |text| <= 3000 then |text| else 3000
  {
    if |text| <= 3000 then text else text[..3000]
  }

  class Session {
    /** The working directory. */
    const store: JsonStore
    var loginStatus: bool
    var username: string
    var chatHistory: seq<ChatTurn>
    var docSummary: string
    var schedules: seq<ScheduleEntry>
    var persona: PersonaSettings
    var loginMessage: string

    /** A user is logged in under a name the per-user data is reloaded for on every run. */
    predicate LoggedIn()
      reads this
    {
      loginStatus && username != ""
    }

    /** The session's copies are what the user's files hold. */
    predicate Synced()
      reads this, store
      requires UserFilesDecode(store.files, username)
    {
      && chatHistory == LoadChat(store.files, username)
      && schedules == LoadSchedules(store.files, username)
      && persona == LoadPersona(store.files, username)
    }

    ghost predicate Valid()
      reads this, store
    {
      StoreWellFormed(store.files) && (LoggedIn() ==> Synced())
    }

    /** The first run: no login, no data. */
    constructor(store: JsonStore)
      requires StoreWellFormed(store.files)
      ensures Valid() && this.store == store
      ensures !loginStatus && username == "" && chatHistory == [] && docSummary == ""
      ensures schedules == [] && persona == NoPersona && loginMessage == ""
    {
      this.store := store;
      loginStatus := false;
      username := "";
      chatHistory := [];
      docSummary := "";
      schedules := [];
      persona := NoPersona;
      loginMessage := "";
    }

    /** The top of every later run: a logged-in user's data is reloaded from the files, anything
        else is cleared. A logged-in session therefore comes through a run unchanged. */
    method Rerun()
      requires Valid()
      modifies this
      ensures Valid()
      ensures loginStatus == old(loginStatus) && username == old(username) && loginMessage == old(loginMessage)
      ensures old(LoggedIn()) ==>
                chatHistory == old(chatHistory) && schedules == old(schedules) && persona == old(persona)
                && docSummary == old(docSummary)
      ensures !old(LoggedIn()) ==>
                chatHistory == [] && docSummary == "" && schedules == [] && persona == NoPersona
    {
      if loginStatus && username != "" {
        chatHistory := LoadChat(store.files, username);
        schedules := LoadSchedules(store.files, username);
        persona := LoadPersona(store.files, username);
      } else {
        chatHistory := [];
        docSummary := "";
        schedules := [];
        persona := NoPersona;
      }
    }

    /** The login form (main.py:179-194). */
    method LoginSubmit(hash: string -> string, name: string, password: string) returns (r: Reply)
      requires Valid()
      modifies this
      ensures Valid()
      ensures r == Login(store.files, hash, name, password)
      ensures r.success ==>
                && loginStatus && username == name && loginMessage == ""
                && chatHistory == LoadChat(store.files, name)
                && schedules == LoadSchedules(store.files, name)
                && persona == LoadPersona(store.files, name)
                && docSummary == old(docSummary)
      ensures !r.success ==>
                && loginMessage == r.message
                && loginStatus == old(loginStatus) && username == old(username)
                && chatHistory == old(chatHistory) && schedules == old(schedules)
                && persona == old(persona) && docSummary == old(docSummary)
    {
      r := Login(store.files, hash, name, password);
      if r.success {
        loginStatus := true;
        username := name;
        chatHistory := LoadChat(store.files, name);
        schedules := LoadSchedules(store.files, name);
        persona := LoadPersona(store.files, name);
        loginMessage := "";
      } else {
        loginMessage := r.message;
      }
    }

    /** The signup form (main.py:203-213): the confirmation is checked first, then that both
        fields are filled, and only then is signup called. */
    method SignupSubmit(hash: string -> string, name: string, password: string, confirmation: string)
      returns (r: Reply)
      requires Valid()
      modifies store
      ensures Valid()
      ensures password != confirmation ==>
                r == Reply(false, PasswordMismatch) && store.files == old(store.files)
      ensures password == confirmation && (name == "" || password == "") ==>
                r == Reply(false, MissingFields) && store.files == old(store.files)
      ensures password == confirmation && name != "" && password != "" && name in LoadUsers(old(store.files)) ==>
                r == Reply(false, AlreadyExists) && store.files == old(store.files)
      ensures password == confirmation && name != "" && password != "" && name !in LoadUsers(old(store.files)) ==>
                r == Reply(true, SignedUp) && store.files == AfterSignup(old(store.files), hash, name, password)
    {
      if password != confirmation {
        r := Reply(false, PasswordMismatch);
      } else if name == "" || password == "" {
        r := Reply(false, MissingFields);
      } else {
        ghost var before := store.files;
        SaveUsers(before, LoadUsers(before)[name := Str(hash(password))]);
        r := Signup(store, hash, name, password);
      }
    }

    /** The logout button (main.py:244-252). */
    method Logout()
      requires Valid()
      modifies this
      ensures Valid()
      ensures !loginStatus && username == "" && chatHistory == [] && docSummary == ""
      ensures schedules == [] && persona == NoPersona && loginMessage == old(loginMessage)
    {
      loginStatus := false;
      username := "";
      chatHistory := [];
      docSummary := "";
      schedules := [];
      persona := NoPersona;
    }

    /** A PDF upload (main.py:262-268): its first 3000 characters are summarised. */
    method UploadDocument(llm: Llm, text: string)
      requires Valid() && loginStatus
      modifies this
      ensures Valid()
      ensures docSummary == Ask(llm, store.files, username, SummaryRequest, Truncated(text), 512)
      ensures loginStatus == old(loginStatus) && username == old(username) && chatHistory == old(chatHistory)
      ensures schedules == old(schedules) && persona == old(persona) && loginMessage == old(loginMessage)
    {
      assert UserFilesDecode(store.files, username);
      docSummary := Ask(llm, store.files, username, SummaryRequest, Truncated(text), 512);
    }

    /** The question button (main.py:278-284): a non-empty question and its answer are appended
        and the whole history is saved. */
    method SubmitChat(llm: Llm, question: string) returns (asked: bool)
      requires Valid() && loginStatus
      modifies this, store
      ensures Valid()
      ensures asked <==> question != ""
      ensures asked ==>
                var answer := Ask(llm, old(store.files), username, question, docSummary, 512);
                && chatHistory == old(chatHistory) + [ChatTurn(question, answer)]
                && store.files == old(store.files)[ChatPath(username) := EncodeChat(chatHistory)]
                && LoadChat(store.files, username) == chatHistory
      ensures !asked ==> chatHistory == old(chatHistory) && store.files == old(store.files)
      ensures loginStatus == old(loginStatus) && username == old(username) && docSummary == old(docSummary)
      ensures schedules == old(schedules) && persona == old(persona) && loginMessage == old(loginMessage)
    {
      if question == "" {
        return false;
      }
      assert UserFilesDecode(store.files, username);
      var answer := Ask(llm, store.files, username, question, docSummary, 512);
      chatHistory := chatHistory + [ChatTurn(question, answer)];
      SaveChat(store.files, username, chatHistory);
      store.SaveJson(ChatPath(username), EncodeChat(chatHistory));
      asked := true;
    }

    /** The clear button (main.py:289-293): the history is emptied and its file deleted. */
    method ClearChat()
      requires Valid() && loginStatus
      modifies this, store
      ensures Valid()
      ensures chatHistory == [] && store.files == old(store.files) - {ChatPath(username)}
      ensures LoadChat(store.files, username) == []
      ensures loginStatus == old(loginStatus) && username == old(username) && docSummary == old(docSummary)
      ensures schedules == old(schedules) && persona == old(persona) && loginMessage == old(loginMessage)
    {
      chatHistory := [];
      RemoveChat(store.files, username);
      store.RemoveIfExists(ChatPath(username));
    }

    /** The add form (main.py:327-339): a non-blank event is appended as
        {str(date), "HH:MM", event} and the list saved; a blank one only shows a warning. */
    method AddSchedule(d: Date, t: Time, event: string) returns (added: bool)
      requires Valid() && loginStatus
      modifies this, store
      ensures Valid()
      ensures added <==> !Blank(event)
      ensures added ==>
                && schedules == old(schedules) + [FormEntry(d, t, event)]
                && store.files == old(store.files)[SchedulePath(username) := EncodeSchedules(schedules)]
                && LoadSchedules(store.files, username) == schedules
      ensures !added ==> schedules == old(schedules) && store.files == old(store.files)
      ensures loginStatus == old(loginStatus) && username == old(username) && docSummary == old(docSummary)
      ensures chatHistory == old(chatHistory) && persona == old(persona) && loginMessage == old(loginMessage)
    {
      if Blank(event) {
        return false;
      }
      schedules := schedules + [ScheduleEntry(FormatDate(d), FormatHourMinute(t), event)];
      SaveSchedules(store.files, username, schedules);
      store.SaveJson(SchedulePath(username), EncodeSchedules(schedules));
      added := true;
    }

    /** The data editor (main.py:344-427), shown only when there are schedules: its rows are
        saved exactly when they hold other tuples than the stored list. */
    method ReconcileEditor(rows: seq<EditorRow>) returns (written: bool)
      requires Valid() && loginStatus
      modifies this, store
      ensures Valid()
      ensures written <==> old(schedules) != [] && multiset(Extracted(rows)) != multiset(old(schedules))
      ensures written ==>
                && schedules == Extracted(rows)
                && store.files == old(store.files)[SchedulePath(username) := EncodeSchedules(schedules)]
                && LoadSchedules(store.files, username) == schedules
                && (forall rows' :: multiset(rows') == multiset(rows) ==>
                      !ScheduleChanged(Extracted(rows'), schedules))
      ensures !written ==> schedules == old(schedules) && store.files == old(store.files)
      ensures loginStatus == old(loginStatus) && username == old(username) && docSummary == old(docSummary)
      ensures chatHistory == old(chatHistory) && persona == old(persona) && loginMessage == old(loginMessage)
    {
      if schedules == [] {
        return false;
      }
      var edited := ExtractEditorRows(rows);
      ChangedIffMultisetsDiffer(edited, schedules);
      if ScheduleChanged(edited, schedules) {
        schedules := edited;
        forall rows' | multiset(rows') == multiset(rows)
          ensures !ScheduleChanged(Extracted(rows'), schedules)
        {
          ReconciledIsStable(rows, rows');
        }
        SaveSchedules(store.files, username, schedules);
        store.SaveJson(SchedulePath(username), EncodeSchedules(schedules));
        written := true;
      } else {
        written := false;
      }
    }

    /** "현재 일정 요약 및 분석 요청" (main.py:434-452). */
    method RequestScheduleAnalysis(llm: Llm) returns (reply: string)
      requires Valid() && loginStatus && schedules != []
      ensures reply == Ask(llm, store.files, username, AnalysisRequest(ScheduleText(schedules)), "", 1024)
    {
      assert UserFilesDecode(store.files, username);
      var text := BuildScheduleText(schedules);
      reply := Ask(llm, store.files, username, AnalysisRequest(text), "", 1024);
    }

    /** "다음 주 추천 일정 요청" (main.py:434-461). */
    method RequestRecommendations(llm: Llm) returns (reply: string)
      requires Valid() && loginStatus && schedules != []
      ensures reply == Ask(llm, store.files, username, RecommendationRequest(ScheduleText(schedules)), "", 512)
    {
      assert UserFilesDecode(store.files, username);
      var text := BuildScheduleText(schedules);
      reply := Ask(llm, store.files, username, RecommendationRequest(text), "", 512);
    }

    /** The persona form (main.py:505-512): exactly four keys are saved, and the next question
        is asked with them. */
    method SavePersona(tone: string, mind: string, focusAreas: string, temperature: real)
      requires Valid() && loginStatus
      modifies this, store
      ensures Valid()
      ensures persona == Persona(tone, mind, focusAreas, temperature)
      ensures store.files == old(store.files)[PersonaPath(username) := EncodePersona(persona)]
      ensures LoadPersona(store.files, username) == persona
      ensures forall llm: Llm, q: string, doc: string, n: nat ::
                Ask(llm, store.files, username, q, doc, n)
                == llm(SystemMessage(persona, doc), q, temperature, n)
      ensures loginStatus == old(loginStatus) && username == old(username) && docSummary == old(docSummary)
      ensures chatHistory == old(chatHistory) && schedules == old(schedules) && loginMessage == old(loginMessage)
    {
      persona := Persona(tone, mind, focusAreas, temperature);
      UserData.SavePersona(store.files, username, persona);
      store.SaveJson(PersonaPath(username), EncodePersona(persona));
    }
  }
}
