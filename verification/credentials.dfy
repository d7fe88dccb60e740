/** The credential store of main.py: the JSON config file, loading it,
    saving a username/password record into it, and the interactive
    first-run setup that decides whether a typed pair is accepted. JSON text
    is abstracted to the object it denotes. */
module CredentialStore {
  import opened Common
  import opened Text

  datatype Credentials = Credentials(username: string, password: string)

  /** The config file on disk: missing, not parseable as JSON, or a JSON
      object with string values. */
  datatype ConfigFile = Absent | Unparsable | JsonObject(fields: map<string, string>)

  /** The answers typed at the three setup prompts, and how writing the
      config file would turn out. */
  datatype SetupAnswers = SetupAnswers(username: string, password: string, confirm: string, write: WriteOutcome)

  /** What `setup_credentials` returns and the config file afterwards. */
  datatype SetupResult = SetupResult(creds: Option<Credentials>, file: ConfigFile)

  /** What `credentials['username']` / `credentials['password']` yield on a
      loaded record: both values, or a missing key (a `KeyError`). */
  datatype Lookup = Found(creds: Credentials) | MissingKey

  /** The JSON object `save_credentials` writes. */
  function Record(c: Credentials): (m: map<string, string>)
    ensures m.Keys == {"username", "password"}
    ensures m["username"] == c.username && m["password"] == c.password
  {
    map["username" := c.username, "password" := c.password]
  }

  /** `load_credentials`: the stored object, or nothing when the file is
      missing or unreadable; it never fails. */
  function Load(file: ConfigFile): (r: Option<map<string, string>>)
    ensures r.Some? <==> file.JsonObject?
    ensures r.Some? ==> r.value == file.fields
  {
    match file
    case JsonObject(fields) => Some(fields)
    case _ => None
  }

  /** `save_credentials`: whether the write succeeded, and the file
      afterwards. A failure caught after `open(CONFIG_FILE, 'w')` has
      truncated the file leaves an empty or partial JSON text behind. */
  function Save(file: ConfigFile, c: Credentials, write: WriteOutcome): (r: (bool, ConfigFile))
    ensures r.0 <==> write == Written
    ensures r.0 ==> r.1 == JsonObject(Record(c))
    ensures write == CannotOpen ==> r.1 == file
    ensures write == FailsAfterOpen ==> r.1 == Unparsable
  {
    match write
    case Written => (true, JsonObject(Record(c)))
    case CannotOpen => (false, file)
    case FailsAfterOpen => (false, Unparsable)
  }

  /** Reads the two fields of a loaded record. */
  function Fields(m: map<string, string>): (r: Lookup)
    ensures r.Found? <==> "username" in m && "password" in m
    ensures r.Found? ==> Record(r.creds) == map k | k in m && k in {"username", "password"} :: m[k]
  {
    if "username" in m && "password" in m then Found(Credentials(m["username"], m["password"]))
    else MissingKey
  }

  /** Python truthiness of the loaded value: `None` and `{}` are both falsy. */
  predicate HasRecord(loaded: Option<map<string, string>>) {
    loaded.Some? && |loaded.value| > 0
  }

  /** The setup answers reach `save_credentials`: both stripped fields are
      non-empty and the stripped, lower-cased confirmation is exactly `y`. */
  predicate SaveAttempted(a: SetupAnswers) {
    Strip(a.username) != "" && Strip(a.password) != "" && Lower(Strip(a.confirm)) == "y"
  }

  /** `setup_credentials`: the credentials are returned and stored only when
      the answers reach the save and the save succeeds. The file is left
      alone unless the save was tried; a save that breaks off after opening
      the file leaves it unparsable. */
  function Setup(file: ConfigFile, a: SetupAnswers): (r: SetupResult)
    ensures r.creds.Some? <==> SaveAttempted(a) && a.write == Written
    ensures r.creds.Some? ==> r.creds.value == Credentials(Strip(a.username), Strip(a.password))
    ensures r.creds.Some? ==> r.file == JsonObject(Record(r.creds.value))
    ensures !SaveAttempted(a) || a.write == CannotOpen ==> r.file == file
    ensures SaveAttempted(a) && a.write == FailsAfterOpen ==> r.file == Unparsable
  {
    var username := Strip(a.username);
    var password := Strip(a.password);
    if username == "" || password == "" then
      SetupResult(None, file)
    else if Lower(Strip(a.confirm)) != "y" then
      SetupResult(None, file)
    else
      var c := Credentials(username, password);
      var (saved, file') := Save(file, c, a.write);
      if saved then SetupResult(Some(c), file') else SetupResult(None, file')
  }

  /** Credentials accepted at setup are non-empty and carry no surrounding
      whitespace. */
  lemma SetupCredentialsWellFormed(file: ConfigFile, a: SetupAnswers)
    requires Setup(file, a).creds.Some?
    ensures var c := Setup(file, a).creds.value;
      c.username != "" && c.password != "" && Strip(c.username) == c.username && Strip(c.password) == c.password
  {
    StripIdempotent(a.username);
    StripIdempotent(a.password);
  }

  /** Stripping twice is stripping once. */
  lemma StripIdempotent(s: string)
    ensures Strip(Strip(s)) == Strip(s)
  {
    var r := Strip(s);
    if r == "" {
    } else {
      assert !IsSpace(r[0]) && !IsSpace(r[|r| - 1]);
      StripLeftKeeps(r);
      StripRightKeeps(r);
    }
  }

  lemma StripLeftKeeps(s: string)
    requires |s| > 0 && !IsSpace(s[0])
    ensures StripLeft(s) == s
  {
  }

  lemma StripRightKeeps(s: string)
    requires |s| > 0 && !IsSpace(s[|s| - 1])
    ensures StripRight(s) == s
  {
  }

  /** Saving then loading gives back the same pair. */
  lemma SaveLoadRoundTrip(file: ConfigFile, c: Credentials)
    ensures Load(Save(file, c, Written).1).Some?
    ensures Fields(Load(Save(file, c, Written).1).value) == Found(c)
  {
  }

  /** A save that breaks off after opening the file destroys any stored
      record: setup reports failure and the next load finds nothing. */
  lemma BrokenSaveLosesRecord(file: ConfigFile, a: SetupAnswers)
    requires SaveAttempted(a) && a.write == FailsAfterOpen
    ensures Setup(file, a).creds.None?
    ensures Load(Setup(file, a).file).None?
  {
  }

  // The literal is a parameter pinned by `requires`, so the proof works on one named term instead of unfolding the literal in every clause.
  /** The confirmation is judged after stripping and lower-casing: ` Y ` is
      accepted, `yes` is not. */
  lemma ConfirmationExamples(file: ConfigFile, user: string, pass: string, shouted: string, long: string)
    requires user == "alice" && pass == "secret123" && shouted == " Y " && long == "yes"
    ensures Setup(file, SetupAnswers(user, pass, shouted, Written)).creds == Some(Credentials(user, pass))
    ensures Setup(file, SetupAnswers(user, pass, long, Written)).creds.None?
  {
    StripLeftKeeps(user);
    StripRightKeeps(user);
    StripLeftKeeps(pass);
    StripRightKeeps(pass);
    assert shouted[1..] == "Y ";
    assert StripLeft(shouted) == "Y ";
    assert ("Y ")[..1] == "Y";
    assert StripRight("Y ") == "Y";
    assert Lower("Y") == "y";
    StripLeftKeeps(long);
    StripRightKeeps(long);
  }
}
