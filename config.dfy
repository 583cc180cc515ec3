/** Configuration read from the process environment: the required schema and table
    names, connection defaults and the list of excluded playlists. */
module Config {
  import opened Common

  /** The process environment: a variable is either unset or holds a string. */
  type Env = map<string, string>

  /** `os.getenv(name)`. */
  function Getenv(env: Env, name: string): Option<string>
  {
    if name in env then Some(env[name]) else None
  }

  /** `os.getenv(name, default)`: the default stands in only for an unset variable. */
  function GetenvOr(env: Env, name: string, default: string): string
  {
    if name in env then env[name] else default
  }

  /** Python's falsiness test on an environment value: unset or empty. */
  predicate Blank(v: Option<string>)
  {
    v.None? || v.value == ""
  }

  datatype DbConfig = DbConfig(host: string, port: string, database: string, user: string, password: string)

  datatype Settings = Settings(
    db: DbConfig,
    schema: string,
    table: string,
    apiKey: Option<string>,
    channelId: Option<string>,
    skipPlaylistIds: seq<string>)

  datatype ConfigError = MissingSchema | MissingTable

  // ---------------------------------------------------------------------------
  // Whitespace stripping (ASCII part of Python's str.strip with no arguments)
  // ---------------------------------------------------------------------------

  /** The ASCII characters Python's str.isspace accepts: tab, line feed, vertical tab,
      form feed, carriage return, the four information separators and space. */
  predicate IsSpace(c: char)
  {
    (9 <= c as int <= 13) || (28 <= c as int <= 32)
  }

  function StripLeft(s: string): (r: string)
    ensures |r| <= |s| && r == s[|s| - |r|..]
    ensures forall k :: 0 <= k < |s| - |r| ==> IsSpace(s[k])
    ensures r == [] || !IsSpace(r[0])
  {
    if s != [] && IsSpace(s[0]) then StripLeft(s[1..]) else s
  }

  function StripRight(s: string): (r: string)
    ensures |r| <= |s| && r == s[..|r|]
    ensures forall k :: |r| <= k < |s| ==> IsSpace(s[k])
    ensures r == [] || !IsSpace(r[|r| - 1])
  {
    if s != [] && IsSpace(s[|s| - 1]) then StripRight(s[..|s| - 1]) else s
  }

  /** `s.strip()`: `s` without its leading and trailing whitespace. */
  function Strip(s: string): (r: string)
    ensures |r| <= |s|
    ensures r == [] || (!IsSpace(r[0]) && !IsSpace(r[|r| - 1]))
  {
    StripRight(StripLeft(s))
  }

  /** Stripping keeps an infix of the input and removes only whitespace around it. */
  lemma StripKeepsInfix(s: string)
    ensures exists i, j :: 0 <= i <= j <= |s| && Strip(s) == s[i..j]
                           && (forall k :: 0 <= k < i ==> IsSpace(s[k]))
                           && (forall k :: j <= k < |s| ==> IsSpace(s[k]))
  {
    var l := StripLeft(s);
    var i := |s| - |l|;
    assert Strip(s) == s[i..i + |Strip(s)|];
  }

  // ---------------------------------------------------------------------------
  // Splitting on a separator (Python's str.split with an explicit separator)
  // ---------------------------------------------------------------------------

  /** `s.split(sep)`: the maximal separator-free segments between separators, empty
      ones included; the empty string splits into one empty segment. */
  function Split(s: string, sep: char): (r: seq<string>)
    ensures |r| >= 1
    ensures forall i :: 0 <= i < |r| ==> sep !in r[i]
  {
    if s == [] then [""]
    else if s[0] == sep then [""] + Split(s[1..], sep)
    else
      var rest := Split(s[1..], sep);
      [[s[0]] + rest[0]] + rest[1..]
  }

  /** `sep.join(parts)`. */
  function Join(parts: seq<string>, sep: char): string
  {
    if |parts| == 0 then ""
    else if |parts| == 1 then parts[0]
    else parts[0] + [sep] + Join(parts[1..], sep)
  }

  /** Splitting loses nothing: joining the segments back gives the original string. */
  lemma {:induction false} JoinSplit(s: string, sep: char)
    ensures Join(Split(s, sep), sep) == s
  {
    if s == [] {
    } else if s[0] == sep {
      JoinSplit(s[1..], sep);
      assert s == [sep] + s[1..];
    } else {
      JoinSplit(s[1..], sep);
      var rest := Split(s[1..], sep);
      if |rest| == 1 {
        assert Split(s, sep) == [[s[0]] + rest[0]];
      } else {
        assert Split(s, sep) == [[s[0]] + rest[0]] + rest[1..];
        assert Join(rest, sep) == rest[0] + [sep] + Join(rest[1..], sep);
      }
      assert s == [s[0]] + s[1..];
    }
  }

  /** Splitting distributes over the first separator. */
  lemma {:induction false} SplitAtSeparator(a: string, b: string, sep: char)
    requires sep !in a
    ensures Split(a + [sep] + b, sep) == Split(a, sep) + Split(b, sep)
  {
    if a == [] {
      assert a + [sep] + b == [sep] + b;
    } else {
      SplitAtSeparator(a[1..], b, sep);
      assert (a + [sep] + b)[1..] == a[1..] + [sep] + b;
    }
  }

  // ---------------------------------------------------------------------------
  // The exclusion list
  // ---------------------------------------------------------------------------

  /** The list comprehension `[pid.strip() for pid in segs if pid.strip()]`. */
  function NonBlankStripped(segs: seq<string>): (r: seq<string>)
    ensures |r| <= |segs|
    ensures forall i :: 0 <= i < |r| ==> r[i] != ""
    ensures forall i :: 0 <= i < |r| ==> !IsSpace(r[i][0]) && !IsSpace(r[i][|r[i]| - 1])
  {
    if segs == [] then []
    else
      var t := Strip(segs[0]);
      (if t == "" then [] else [t]) + NonBlankStripped(segs[1..])
  }

  lemma {:induction false} NonBlankStrippedAppend(x: seq<string>, y: seq<string>)
    ensures NonBlankStripped(x + y) == NonBlankStripped(x) + NonBlankStripped(y)
  {
    if x == [] {
      assert x + y == y;
    } else {
      var h := Strip(x[0]);
      var head: seq<string> := if h == "" then [] else [h];
      assert (x + y)[0] == x[0];
      assert (x + y)[1..] == x[1..] + y;
      NonBlankStrippedAppend(x[1..], y);
      calc {
        NonBlankStripped(x + y);
        head + NonBlankStripped(x[1..] + y);
        head + (NonBlankStripped(x[1..]) + NonBlankStripped(y));
        (head + NonBlankStripped(x[1..])) + NonBlankStripped(y);
      }
    }
  }

  /** SKIP_PLAYLIST_IDS: an unset or empty variable gives no exclusions; otherwise the
      comma-separated segments, stripped, with blank ones dropped. */
  function ParseSkipList(v: Option<string>): (r: seq<string>)
    ensures Blank(v) ==> r == []
    ensures forall i :: 0 <= i < |r| ==> r[i] != ""
    ensures forall i :: 0 <= i < |r| ==> !IsSpace(r[i][0]) && !IsSpace(r[i][|r[i]| - 1])
  {
    if Blank(v) then [] else NonBlankStripped(Split(v.value, ','))
  }

  /** A value without a comma contributes its stripped text, unless that is blank. */
  lemma ParseSkipListSegment(s: string)
    requires ',' !in s
    ensures ParseSkipList(Some(s)) == if Strip(s) == "" then [] else [Strip(s)]
  {
    if s != "" {
      SplitWithoutSeparator(s, ',');
      assert NonBlankStripped([s]) == (if Strip(s) == "" then [] else [Strip(s)]) + NonBlankStripped([]);
    } else {
      assert Strip("") == "";
    }
  }

  /** A string without separators is a single segment. */
  lemma {:induction false} SplitWithoutSeparator(s: string, sep: char)
    requires sep !in s
    ensures Split(s, sep) == [s]
  {
    if s != [] {
      SplitWithoutSeparator(s[1..], sep);
      assert s == [s[0]] + s[1..];
    }
  }

  /** The exclusion list keeps the segments' order: the list for "a,b" is the list for
      "a" followed by the list for "b". */
  lemma ParseSkipListConcat(a: string, b: string)
    requires ',' !in a
    ensures ParseSkipList(Some(a + "," + b)) == ParseSkipList(Some(a)) + ParseSkipList(Some(b))
  {
    var whole := a + "," + b;
    assert whole == a + [','] + b;
    assert !Blank(Some(whole));
    SplitAtSeparator(a, b, ',');
    NonBlankStrippedAppend(Split(a, ','), Split(b, ','));
    assert NonBlankStripped(Split("", ',')) == [] by {
      assert Split("", ',') == [""];
      assert Strip("") == "";
    }
  }

  // ---------------------------------------------------------------------------
  // Loading the settings
  // ---------------------------------------------------------------------------

  /** Module-level configuration: DB_SCHEMA and then DB_TABLE are required (unset or
      empty is an error), the connection settings fall back to their defaults, and
      the exclusion list is parsed from SKIP_PLAYLIST_IDS. */
  function Load(env: Env): (r: Result<Settings, ConfigError>)
    ensures r.Err? <==> Blank(Getenv(env, "DB_SCHEMA")) || Blank(Getenv(env, "DB_TABLE"))
    ensures Blank(Getenv(env, "DB_SCHEMA")) ==> r == Err(MissingSchema)
    ensures !Blank(Getenv(env, "DB_SCHEMA")) && Blank(Getenv(env, "DB_TABLE")) ==> r == Err(MissingTable)
    ensures r.Ok? ==> r.value.schema == env["DB_SCHEMA"] && r.value.table == env["DB_TABLE"]
    ensures r.Ok? ==> r.value.skipPlaylistIds == ParseSkipList(Getenv(env, "SKIP_PLAYLIST_IDS"))
    ensures r.Ok? && "DB_HOST" !in env ==> r.value.db.host == "localhost"
    ensures r.Ok? && "DB_PORT" !in env ==> r.value.db.port == "5432"
  {
    var db := DbConfig(
      GetenvOr(env, "DB_HOST", "localhost"),
      GetenvOr(env, "DB_PORT", "5432"),
      GetenvOr(env, "DB_NAME", "postgres"),
      GetenvOr(env, "DB_USER", "postgres"),
      GetenvOr(env, "DB_PASSWORD", ""));
    var schema := Getenv(env, "DB_SCHEMA");
    if Blank(schema) then Err(MissingSchema)
    else
      var table := Getenv(env, "DB_TABLE");
      if Blank(table) then Err(MissingTable)
      else Ok(Settings(db, schema.value, table.value, Getenv(env, "YOUTUBE_API_KEY"),
                       Getenv(env, "CHANNEL_ID"), ParseSkipList(Getenv(env, "SKIP_PLAYLIST_IDS"))))
  }

  /** The required-value errors are decided before anything else: whether loading
      fails, and with which error, depends on DB_SCHEMA and DB_TABLE alone. */
  lemma LoadErrorDependsOnlyOnSchemaAndTable(e1: Env, e2: Env)
    requires Getenv(e1, "DB_SCHEMA") == Getenv(e2, "DB_SCHEMA")
    requires Getenv(e1, "DB_TABLE") == Getenv(e2, "DB_TABLE")
    ensures Load(e1).Err? <==> Load(e2).Err?
    ensures Load(e1).Err? ==> Load(e1) == Load(e2)
  {
  }
}
