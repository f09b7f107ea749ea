/** The account database of main.py:18-53: users.json maps each username to the hash of the
    password. hash_password is a parameter: any deterministic function of the password. */
module Credentials {
  import opened Json
  import opened Store

  /** A (success, message) pair as signup and login return it. */
  datatype Reply = Reply(success: bool, message: string)

  const AlreadyExists: string := "이미 존재하는 사용자입니다."
  const SignedUp: string := "회원가입 성공! 로그인 해주세요."
  const UnknownUser: string := "존재하지 않는 사용자입니다."
  const WrongPassword: string := "비밀번호가 틀렸습니다."
  const LoggedIn: string := "로그인 성공!"

  /** users.json, when present, is a JSON object: save_users is its only writer. */
  predicate UsersFileWellFormed(files: map<string, Value>) {
    UsersPath in files ==> files[UsersPath].Obj?
  }

  /** load_users: the stored map, or `{}` when users.json does not exist. */
  function LoadUsers(files: map<string, Value>): (r: map<string, Value>)
    requires UsersFileWellFormed(files)
    ensures UsersPath !in files ==> r == map[]
    ensures UsersPath in files ==> Obj(r) == files[UsersPath]
  {
    if UsersPath in files then files[UsersPath].fields else map[]
  }

  /** Whether `username` is registered with the hash of `password`. */
  predicate Registered(files: map<string, Value>, hash: string -> string, username: string, password: string)
    requires UsersFileWellFormed(files)
  {
    username in LoadUsers(files) && LoadUsers(files)[username] == Str(hash(password))
  }

  /** login: unknown users are turned away before any hash is compared. */
  function Login(files: map<string, Value>, hash: string -> string, username: string, password: string): (r: Reply)
    requires UsersFileWellFormed(files)
    ensures r.success <==> Registered(files, hash, username, password)
    ensures r.success ==> r.message == LoggedIn
    ensures username !in LoadUsers(files) ==> r == Reply(false, UnknownUser)
    ensures username in LoadUsers(files) && !r.success ==> r.message == WrongPassword
  {
    var users := LoadUsers(files);
    if username !in users then Reply(false, UnknownUser)
    else if users[username] != Str(hash(password)) then Reply(false, WrongPassword)
    else Reply(true, LoggedIn)
  }

  /** The files after a successful signup: users.json rewritten with one more entry. */
  function AfterSignup(files: map<string, Value>, hash: string -> string, username: string, password: string): map<string, Value>
    requires UsersFileWellFormed(files)
  {
    files[UsersPath := Obj(LoadUsers(files)[username := Str(hash(password))])]
  }

  /** What signup answers: a taken name is refused, any other name is accepted. */
  function SignupReply(files: map<string, Value>, username: string): (r: Reply)
    requires UsersFileWellFormed(files)
    ensures r.success <==> username !in LoadUsers(files)
    ensures r.message == (if r.success then SignedUp else AlreadyExists)
  {
    if username in LoadUsers(files) then Reply(false, AlreadyExists) else Reply(true, SignedUp)
  }

  /** The files signup leaves: unchanged after a refusal, users.json rewritten otherwise. */
  function SignupFiles(files: map<string, Value>, hash: string -> string, username: string, password: string): (files': map<string, Value>)
    requires UsersFileWellFormed(files)
    ensures UsersFileWellFormed(files')
    ensures username in LoadUsers(files) ==> files' == files
    ensures username !in LoadUsers(files) ==> files' == AfterSignup(files, hash, username, password)
  {
    if username in LoadUsers(files) then files else AfterSignup(files, hash, username, password)
  }

  /** signup: a read-modify-write of users.json. */
  method Signup(store: JsonStore, hash: string -> string, username: string, password: string) returns (r: Reply)
    requires UsersFileWellFormed(store.files)
    modifies store
    ensures UsersFileWellFormed(store.files)
    ensures username in LoadUsers(old(store.files)) ==>
              r == Reply(false, AlreadyExists) && store.files == old(store.files)
    ensures username !in LoadUsers(old(store.files)) ==>
              r == Reply(true, SignedUp) && store.files == AfterSignup(old(store.files), hash, username, password)
    ensures r == SignupReply(old(store.files), username)
    ensures store.files == SignupFiles(old(store.files), hash, username, password)
  {
    var users := LoadUsers(store.files);
    if username in users {
      return Reply(false, AlreadyExists);
    }
    users := users[username := Str(hash(password))];
    store.SaveJson(UsersPath, Obj(users));
    r := Reply(true, SignedUp);
  }

  /** A new user can log in with the password they signed up with. */
  lemma SignupThenLogin(files: map<string, Value>, hash: string -> string, username: string, password: string)
    requires UsersFileWellFormed(files) && username !in LoadUsers(files)
    ensures UsersFileWellFormed(AfterSignup(files, hash, username, password))
    ensures Login(AfterSignup(files, hash, username, password), hash, username, password) == Reply(true, LoggedIn)
  {
  }

  /** Any password whose hash differs is refused, with the wrong-password message. */
  lemma SignupThenWrongPassword(files: map<string, Value>, hash: string -> string, username: string, password: string, other: string)
    requires UsersFileWellFormed(files) && username !in LoadUsers(files) && hash(other) != hash(password)
    ensures UsersFileWellFormed(AfterSignup(files, hash, username, password))
    ensures Login(AfterSignup(files, hash, username, password), hash, username, other) == Reply(false, WrongPassword)
  {
  }

  /** A signup changes nothing for anybody else: every other user logs in (or not) as before,
      and no file but users.json changes. */
  lemma SignupKeepsOthers(files: map<string, Value>, hash: string -> string, username: string, password: string,
                          someone: string, theirPassword: string, path: string)
    requires UsersFileWellFormed(files) && someone != username
    ensures UsersFileWellFormed(AfterSignup(files, hash, username, password))
    ensures var after := AfterSignup(files, hash, username, password);
      && (someone in LoadUsers(after) <==> someone in LoadUsers(files))
      && (someone in LoadUsers(files) ==> LoadUsers(after)[someone] == LoadUsers(files)[someone])
      && Login(after, hash, someone, theirPassword) == Login(files, hash, someone, theirPassword)
    ensures path != UsersPath ==> LoadJson(AfterSignup(files, hash, username, password), path) == LoadJson(files, path)
  {
  }

  /** Signing up a second time with the same name, whatever the password, is refused with the
      already-exists message and leaves the files as the first signup left them. */
  lemma SignupTwiceRefused(files: map<string, Value>, hash: string -> string, username: string, password: string,
                           password': string)
    requires UsersFileWellFormed(files)
    ensures UsersFileWellFormed(SignupFiles(files, hash, username, password))
    ensures var after := SignupFiles(files, hash, username, password);
      && username in LoadUsers(after)
      && SignupReply(after, username) == Reply(false, AlreadyExists)
      && SignupFiles(after, hash, username, password') == after
  {
  }
}
