/** The files main.py keeps next to itself: users.json and three JSON files per user. */
module Store {
  import opened Json

  /** USER_DATA_PATH. */
  const UsersPath: string := "users.json"

  /** get_chat_save_path. */
  function ChatPath(username: string): string {
    "chat_history_" + username + ".json"
  }

  /** get_schedule_save_path. */
  function SchedulePath(username: string): string {
    "schedules_" + username + ".json"
  }

  /** get_persona_save_path. */
  function PersonaPath(username: string): string {
    "ai_persona_" + username + ".json"
  }

  /** Each path builder gives every user a file of their own. */
  lemma PathsInjective(u: string, v: string)
    ensures ChatPath(u) == ChatPath(v) ==> u == v
    ensures SchedulePath(u) == SchedulePath(v) ==> u == v
    ensures PersonaPath(u) == PersonaPath(v) ==> u == v
  {
    var c, s, p := ChatPath(u), SchedulePath(u), PersonaPath(u);
    assert c[13..|c| - 5] == u;
    assert s[10..|s| - 5] == u;
    assert p[11..|p| - 5] == u;
    var c', s', p' := ChatPath(v), SchedulePath(v), PersonaPath(v);
    assert c'[13..|c'| - 5] == v;
    assert s'[10..|s'| - 5] == v;
    assert p'[11..|p'| - 5] == v;
  }

  /** The three kinds of per-user file never share a path with each other or with users.json,
      whatever the two usernames are. */
  lemma PathKindsDisjoint(u: string, v: string)
    ensures ChatPath(u) != SchedulePath(v)
    ensures ChatPath(u) != PersonaPath(v)
    ensures SchedulePath(u) != PersonaPath(v)
    ensures ChatPath(u) != UsersPath
    ensures SchedulePath(u) != UsersPath
    ensures PersonaPath(u) != UsersPath
  {
    assert ChatPath(u)[0] == 'c';
    assert SchedulePath(u)[0] == 's' && SchedulePath(v)[0] == 's';
    assert PersonaPath(u)[0] == 'a' && PersonaPath(v)[0] == 'a';
    assert UsersPath[0] == 'u';
  }

  /** The working directory: a JSON document per existing path. */
  class JsonStore {
    var files: map<string, Value>

    constructor(initial: map<string, Value>)
      ensures files == initial
    {
      files := initial;
    }

    /** save_json: writes `data` to `path`, replacing whatever was there. */
    method SaveJson(path: string, data: Value)
      modifies this
      ensures files == old(files)[path := data]
    {
      files := files[path := data];
    }

    /** `if os.path.exists(path): os.remove(path)`. */
    method RemoveIfExists(path: string)
      modifies this
      ensures files == old(files) - {path}
    {
      if path in files {
        files := files - {path};
      }
    }
  }

  /** load_json: the stored document, or `[]` when the file does not exist. */
  function LoadJson(files: map<string, Value>, path: string): Value {
    if path in files then files[path] else Arr([])
  }

  /** load_json_dict: the stored document, or `{}` when the file does not exist. */
  function LoadJsonDict(files: map<string, Value>, path: string): Value {
    if path in files then files[path] else Obj(map[])
  }

  /** A load reads back exactly what the last save wrote, and a save touches no other path. */
  lemma LoadAfterSave(files: map<string, Value>, path: string, data: Value, other: string)
    ensures LoadJson(files[path := data], path) == data
    ensures LoadJsonDict(files[path := data], path) == data
    ensures other != path ==> LoadJson(files[path := data], other) == LoadJson(files, other)
    ensures other != path ==> LoadJsonDict(files[path := data], other) == LoadJsonDict(files, other)
  {
  }

  /** After the file is removed the loaders fall back to their empty defaults. */
  lemma LoadAfterRemove(files: map<string, Value>, path: string)
    ensures LoadJson(files - {path}, path) == Arr([])
    ensures LoadJsonDict(files - {path}, path) == Obj(map[])
  {
  }
}
