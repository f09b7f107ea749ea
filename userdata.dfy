/** What the per-user files hold once read back, and how each save or delete main.py performs
    changes that: only the file it writes, and only for its own user. */
module UserData {
  import opened Json
  import opened Store
  import opened Records
  import opened Credentials

  /** The three documents of user `u` read back as what the app saves there (an absent file reads
      as the empty default). */
  predicate UserFilesDecode(files: map<string, Value>, u: string) {
    && DecodeChat(LoadJson(files, ChatPath(u))).Some?
    && DecodeSchedules(LoadJson(files, SchedulePath(u))).Some?
    && DecodePersona(LoadJsonDict(files, PersonaPath(u))).Some?
  }

  /** The working directory as the app leaves it: users.json is an object and every user's
      documents decode. */
  ghost predicate StoreWellFormed(files: map<string, Value>) {
    UsersFileWellFormed(files) && forall u :: UserFilesDecode(files, u)
  }

  /** `load_json(get_chat_save_path(u))`. */
  function LoadChat(files: map<string, Value>, u: string): seq<ChatTurn>
    requires UserFilesDecode(files, u)
  {
    DecodeChat(LoadJson(files, ChatPath(u))).value
  }

  /** `load_json(get_schedule_save_path(u))`. */
  function LoadSchedules(files: map<string, Value>, u: string): seq<ScheduleEntry>
    requires UserFilesDecode(files, u)
  {
    DecodeSchedules(LoadJson(files, SchedulePath(u))).value
  }

  /** `load_json_dict(get_persona_save_path(u))`. */
  function LoadPersona(files: map<string, Value>, u: string): PersonaSettings
    requires UserFilesDecode(files, u)
  {
    DecodePersona(LoadJsonDict(files, PersonaPath(u))).value
  }

  /** A user who never saved anything reads back an empty history, no schedules and no persona. */
  lemma FreshUserIsEmpty(files: map<string, Value>, u: string)
    requires ChatPath(u) !in files && SchedulePath(u) !in files && PersonaPath(u) !in files
    ensures UserFilesDecode(files, u)
    ensures LoadChat(files, u) == [] && LoadSchedules(files, u) == [] && LoadPersona(files, u) == NoPersona
  {
  }

  /** The documents of `v` are read the same from both directories. */
  predicate SameUserData(files: map<string, Value>, files': map<string, Value>, v: string)
    requires UserFilesDecode(files, v) && UserFilesDecode(files', v)
  {
    && LoadChat(files', v) == LoadChat(files, v)
    && LoadSchedules(files', v) == LoadSchedules(files, v)
    && LoadPersona(files', v) == LoadPersona(files, v)
  }

  /** Whether `path` is one of the files of user `v`. */
  predicate OwnPath(path: string, v: string) {
    path == ChatPath(v) || path == SchedulePath(v) || path == PersonaPath(v)
  }

  /** Every path the app writes belongs to exactly one user and one kind. */
  lemma OwnPathOf(u: string, v: string)
    ensures OwnPath(ChatPath(u), v) ==> u == v
    ensures OwnPath(SchedulePath(u), v) ==> u == v
    ensures OwnPath(PersonaPath(u), v) ==> u == v
    ensures !OwnPath(UsersPath, v)
  {
    PathsInjective(u, v);
    PathKindsDisjoint(u, v);
    PathKindsDisjoint(v, u);
    PathKindsDisjoint(v, v);
  }

  /** A write to a path that is not one of `v`'s files leaves `v`'s documents alone. */
  lemma ForeignWrite(files: map<string, Value>, files': map<string, Value>, path: string, v: string)
    requires forall p :: p != path ==> LoadJson(files', p) == LoadJson(files, p)
    requires forall p :: p != path ==> LoadJsonDict(files', p) == LoadJsonDict(files, p)
    requires !OwnPath(path, v) && UserFilesDecode(files, v)
    ensures UserFilesDecode(files', v) && SameUserData(files, files', v)
  {
    assert LoadJson(files', ChatPath(v)) == LoadJson(files, ChatPath(v));
    assert LoadJson(files', SchedulePath(v)) == LoadJson(files, SchedulePath(v));
    assert LoadJsonDict(files', PersonaPath(v)) == LoadJsonDict(files, PersonaPath(v));
  }

  lemma SaveIsLocal(files: map<string, Value>, path: string, data: Value)
    ensures forall p :: p != path ==> LoadJson(files[path := data], p) == LoadJson(files, p)
    ensures forall p :: p != path ==> LoadJsonDict(files[path := data], p) == LoadJsonDict(files, p)
  {
  }

  lemma RemoveIsLocal(files: map<string, Value>, path: string)
    ensures forall p :: p != path ==> LoadJson(files - {path}, p) == LoadJson(files, p)
    ensures forall p :: p != path ==> LoadJsonDict(files - {path}, p) == LoadJsonDict(files, p)
  {
  }

  /** Saving a chat history: it reads back as saved, and nothing else changes. */
  lemma SaveChat(files: map<string, Value>, u: string, history: seq<ChatTurn>)
    requires StoreWellFormed(files)
    ensures var files' := files[ChatPath(u) := EncodeChat(history)];
      && StoreWellFormed(files')
      && LoadChat(files', u) == history
      && LoadSchedules(files', u) == LoadSchedules(files, u)
      && LoadPersona(files', u) == LoadPersona(files, u)
      && LoadUsers(files') == LoadUsers(files)
      && (forall v :: v != u ==> SameUserData(files, files', v))
  {
    var files' := files[ChatPath(u) := EncodeChat(history)];
    ChatRoundTrip(history, EncodeChat(history));
    SaveIsLocal(files, ChatPath(u), EncodeChat(history));
    forall v ensures UserFilesDecode(files', v) && (v != u ==> SameUserData(files, files', v)) {
      OwnPathOf(u, v);
      assert UserFilesDecode(files, v);
      if v != u {
        ForeignWrite(files, files', ChatPath(u), v);
      } else {
        PathKindsDisjoint(u, u);
        assert LoadJson(files', SchedulePath(u)) == LoadJson(files, SchedulePath(u));
        assert LoadJsonDict(files', PersonaPath(u)) == LoadJsonDict(files, PersonaPath(u));
      }
    }
  }

  /** Saving a schedule list: it reads back as saved, and nothing else changes. */
  lemma SaveSchedules(files: map<string, Value>, u: string, entries: seq<ScheduleEntry>)
    requires StoreWellFormed(files)
    ensures var files' := files[SchedulePath(u) := EncodeSchedules(entries)];
      && StoreWellFormed(files')
      && LoadSchedules(files', u) == entries
      && LoadChat(files', u) == LoadChat(files, u)
      && LoadPersona(files', u) == LoadPersona(files, u)
      && LoadUsers(files') == LoadUsers(files)
      && (forall v :: v != u ==> SameUserData(files, files', v))
  {
    var files' := files[SchedulePath(u) := EncodeSchedules(entries)];
    SchedulesRoundTrip(entries, EncodeSchedules(entries));
    SaveIsLocal(files, SchedulePath(u), EncodeSchedules(entries));
    forall v ensures UserFilesDecode(files', v) && (v != u ==> SameUserData(files, files', v)) {
      OwnPathOf(u, v);
      assert UserFilesDecode(files, v);
      if v != u {
        ForeignWrite(files, files', SchedulePath(u), v);
      } else {
        PathKindsDisjoint(u, u);
        assert LoadJson(files', ChatPath(u)) == LoadJson(files, ChatPath(u));
        assert LoadJsonDict(files', PersonaPath(u)) == LoadJsonDict(files, PersonaPath(u));
      }
    }
  }

  /** Saving persona settings: they read back as saved, and nothing else changes. */
  lemma SavePersona(files: map<string, Value>, u: string, p: PersonaSettings)
    requires StoreWellFormed(files)
    ensures var files' := files[PersonaPath(u) := EncodePersona(p)];
      && StoreWellFormed(files')
      && LoadPersona(files', u) == p
      && LoadChat(files', u) == LoadChat(files, u)
      && LoadSchedules(files', u) == LoadSchedules(files, u)
      && LoadUsers(files') == LoadUsers(files)
      && (forall v :: v != u ==> SameUserData(files, files', v))
  {
    var files' := files[PersonaPath(u) := EncodePersona(p)];
    PersonaRoundTrip(p, EncodePersona(p));
    SaveIsLocal(files, PersonaPath(u), EncodePersona(p));
    forall v ensures UserFilesDecode(files', v) && (v != u ==> SameUserData(files, files', v)) {
      OwnPathOf(u, v);
      assert UserFilesDecode(files, v);
      if v != u {
        ForeignWrite(files, files', PersonaPath(u), v);
      } else {
        PathKindsDisjoint(u, u);
        assert LoadJson(files', ChatPath(u)) == LoadJson(files, ChatPath(u));
        assert LoadJson(files', SchedulePath(u)) == LoadJson(files, SchedulePath(u));
      }
    }
  }

  /** Deleting the chat file: the history reads back empty, and nothing else changes. */
  lemma RemoveChat(files: map<string, Value>, u: string)
    requires StoreWellFormed(files)
    ensures var files' := files - {ChatPath(u)};
      && StoreWellFormed(files')
      && LoadChat(files', u) == []
      && LoadSchedules(files', u) == LoadSchedules(files, u)
      && LoadPersona(files', u) == LoadPersona(files, u)
      && LoadUsers(files') == LoadUsers(files)
      && (forall v :: v != u ==> SameUserData(files, files', v))
  {
    var files' := files - {ChatPath(u)};
    RemoveIsLocal(files, ChatPath(u));
    forall v ensures UserFilesDecode(files', v) && (v != u ==> SameUserData(files, files', v)) {
      OwnPathOf(u, v);
      assert UserFilesDecode(files, v);
      if v != u {
        ForeignWrite(files, files', ChatPath(u), v);
      } else {
        PathKindsDisjoint(u, u);
        assert LoadJson(files', SchedulePath(u)) == LoadJson(files, SchedulePath(u));
        assert LoadJsonDict(files', PersonaPath(u)) == LoadJsonDict(files, PersonaPath(u));
      }
    }
  }

  /** Rewriting users.json leaves every user's documents alone. */
  lemma SaveUsers(files: map<string, Value>, users: map<string, Value>)
    requires StoreWellFormed(files)
    ensures var files' := files[UsersPath := Obj(users)];
      && StoreWellFormed(files')
      && LoadUsers(files') == users
      && (forall v :: SameUserData(files, files', v))
  {
    var files' := files[UsersPath := Obj(users)];
    SaveIsLocal(files, UsersPath, Obj(users));
    forall v ensures UserFilesDecode(files', v) && SameUserData(files, files', v) {
      OwnPathOf(v, v);
      ForeignWrite(files, files', UsersPath, v);
    }
  }
}
