/**
  The parts of the deployment script (`DeploymentManager` in scripts/deploy.js)
  that decide something: reading `KEY=value` lines out of a `.env` file and
  demanding the three secrets, and the comparison of a configuration with its
  decrypted copy before it is uploaded.

  Reading the file is not modelled: the file's text is a parameter, `None`
  when the file does not exist.
 */
module Deploy {
  import opened Wrappers
  import opened Text
  import opened Reminder

  const EnvFileMissing: string := ".envファイルが見つかりません。.env.exampleを参考に.envファイルを作成してください。"
  const RequiredVars: seq<string> := ["DISCORD_WEBHOOK_URL", "MANUAL_TRIGGER_SECRET_KEY", "ENCRYPTION_SECRET_KEY"]

  function MissingVarMessage(name: string): string {
    "必須の環境変数 " + name + " が.envファイルに設定されていません。"
  }

  // ---------------------------------------------------------------------------
  // .env lines
  // ---------------------------------------------------------------------------

  predicate IsQuote(c: char) {
    c == '"' || c == '\''
  }

  /** `replace(/^["']|["']$/g, '')`: one quote dropped at the start, one at the end. */
  function StripQuotes(v: string): string {
    var w := if |v| > 0 && IsQuote(v[0]) then v[1..] else v;
    if |w| > 0 && IsQuote(w[|w| - 1]) then w[..|w| - 1] else w
  }

  /**
    One line of the file: blank lines and `#` comments define nothing; otherwise
    the key is the text before the first `=` and the value everything after it,
    quotes stripped. A line without `=` or with an empty key defines nothing.
   */
  function ParseLine(line: string): Option<(string, string)> {
    var t := Trim(line);
    if t == [] || t[0] == '#' then None
    else
      var parts := Split(t, '=');
      if parts[0] == [] || |parts| < 2 then None
      else Some((parts[0], StripQuotes(Join(parts[1..], '='))))
  }

  /** The assignment each line makes, if any. */
  function Parsed(lines: seq<string>): (defs: seq<Option<(string, string)>>)
  {
    seq(|lines|, i requires 0 <= i < |lines| => ParseLine(lines[i]))
  }

  /** The variables a sequence of assignments leaves behind, later ones overriding earlier ones. */
  function Assignments(defs: seq<Option<(string, string)>>): map<string, string>
    decreases |defs|
  {
    if defs == [] then map[]
    else
      var env := Assignments(defs[..|defs| - 1]);
      match defs[|defs| - 1]
      case None => env
      case Some((k, v)) => env[k := v]
  }

  /** The variables a `.env` file defines. */
  function ParseEnv(lines: seq<string>): map<string, string> {
    Assignments(Parsed(lines))
  }

  predicate Defines(def: Option<(string, string)>, key: string) {
    def.Some? && def.value.0 == key
  }

  /** A variable counts as set only when it is there and not empty. */
  predicate IsSet(env: map<string, string>, name: string) {
    name in env && env[name] != ""
  }

  /** The position of the first variable of `names` that is not set. */
  function FirstMissing(env: map<string, string>, names: seq<string>): (r: Option<nat>)
    ensures r.None? ==> forall i :: 0 <= i < |names| ==> IsSet(env, names[i])
    ensures r.Some? ==>
      r.value < |names| && !IsSet(env, names[r.value]) && forall j :: 0 <= j < r.value ==> IsSet(env, names[j])
    decreases |names|
  {
    if names == [] then None
    else if !IsSet(env, names[0]) then Some(0)
    else match FirstMissing(env, names[1..])
      case None => None
      case Some(i) => Some(i + 1)
  }

  /**
    The callback `loadEnvFile` runs on each line: a blank line or a comment is
    skipped, otherwise the key before the first `=` receives the rest.
   */
  method AssignLine(envVars: map<string, string>, line: string) returns (updated: map<string, string>)
    ensures updated == match ParseLine(line) case None => envVars case Some((k, v)) => envVars[k := v]
  {
    updated := envVars;
    var trimmedLine := Trim(line);
    if trimmedLine != [] && trimmedLine[0] != '#' {
      var parts := Split(trimmedLine, '=');
      var key := parts[0];
      if key != [] && |parts| > 1 {
        updated := envVars[key := StripQuotes(Join(parts[1..], '='))];
      }
    }
  }

  /**
    `loadEnvFile`: the variables of the file, or the error for a missing file or
    for the first required variable that is not set.
   */
  method LoadEnvFile(content: Option<string>) returns (r: Result<map<string, string>, string>)
    ensures content.None? ==> r == Err(EnvFileMissing)
    ensures content.Some? ==>
      var env := ParseEnv(Split(content.value, '\n'));
      match FirstMissing(env, RequiredVars)
      case None => r == Ok(env)
      case Some(i) => r == Err(MissingVarMessage(RequiredVars[i]))
  {
    if content.None? {
      return Err(EnvFileMissing);
    }
    var lines := Split(content.value, '\n');
    var envVars: map<string, string> := map[];
    ghost var defs := Parsed(lines);
    for i := 0 to |lines|
      invariant envVars == Assignments(defs[..i])
    {
      envVars := AssignLine(envVars, lines[i]);
      AssignmentsStep(defs, i);
    }
    assert defs[..|lines|] == defs;
    var missing := FindMissing(envVars, RequiredVars);
    if missing.Some? {
      return Err(MissingVarMessage(RequiredVars[missing.value]));
    }
    return Ok(envVars);
  }

  /** The loop over the required variables: the first one that is absent or empty. */
  method FindMissing(envVars: map<string, string>, names: seq<string>) returns (missing: Option<nat>)
    ensures missing == FirstMissing(envVars, names)
  {
    for j := 0 to |names|
      invariant forall k :: 0 <= k < j ==> IsSet(envVars, names[k])
    {
      var varName := names[j];
      if !(varName in envVars && envVars[varName] != "") {
        return Some(j);
      }
    }
    return None;
  }

  lemma AssignmentsStep(defs: seq<Option<(string, string)>>, i: nat)
    requires i < |defs|
    ensures Assignments(defs[..i + 1]) ==
      if defs[i].Some? then Assignments(defs[..i])[defs[i].value.0 := defs[i].value.1] else Assignments(defs[..i])
  {
    assert defs[..i + 1][..i] == defs[..i];
  }

  /**
    What a line defines, in terms of its trimmed text: it defines something
    exactly when it is not blank, not a comment and has a non-empty key before
    its first `=`; the value keeps any later `=` and loses one pair of quotes.
   */
  lemma ParseLineMeaning(line: string)
    ensures var t := Trim(line);
      ParseLine(line).Some? <==> (t != [] && t[0] != '#' && '=' in t && IndexOf(t, '=') > 0)
    ensures ParseLine(line).Some? ==>
      var t := Trim(line);
      var i := IndexOf(t, '=');
      ParseLine(line).value == (t[..i], StripQuotes(t[i + 1..]))
  {
    var t := Trim(line);
    if t != [] && '=' in t {
      SplitFirst(t, '=');
    }
  }

  /** The first `=` of `key=value` is the one after the key, when the key has none. */
  lemma FirstEquals(key: string, value: string, line: string)
    requires '=' !in key && line == key + "=" + value
    ensures '=' in line && IndexOf(line, '=') == |key| && line[|key| + 1..] == value
  {
    assert line[|key|] == '=';
  }

  lemma KeyValueLine(key: string, value: string, line: string)
    requires key != [] && '=' !in key && !IsJsWhitespace(key[0])
    requires line == key + "=" + value
    requires value == [] || !IsJsWhitespace(value[|value| - 1])
    ensures Trim(line) == line && '=' in line && IndexOf(line, '=') == |key| && line[|key| + 1..] == value
  {
    assert [] + line + [] == line;
    assert line[0] == key[0];
    assert line[|line| - 1] == if value == [] then '=' else value[|value| - 1];
    TrimPadded([], line, []);
    FirstEquals(key, value, line);
  }

  /** `key=value` assigns the value, quotes stripped, to the key. */
  lemma KeyValueParse(key: string, value: string)
    requires key != [] && '=' !in key && key[0] != '#' && !IsJsWhitespace(key[0])
    requires value == [] || !IsJsWhitespace(value[|value| - 1])
    ensures ParseLine(key + "=" + value) == Some((key, StripQuotes(value)))
  {
    var line := key + "=" + value;
    KeyValueLine(key, value, line);
    ParseLineMeaning(line);
    assert line[0] == key[0];
    assert line[..|key|] == key;
  }

  /**
    A quoted assignment gives back exactly the text between the quotes, whatever
    it holds; the two quotes may be of either kind and need not match.
   */
  lemma QuotedLineRoundTrip(key: string, open: char, value: string, close: char)
    requires key != [] && '=' !in key && key[0] != '#' && !IsJsWhitespace(key[0])
    requires IsQuote(open) && IsQuote(close)
    ensures ParseLine(key + "=" + ([open] + value + [close])) == Some((key, value))
  {
    var quoted := [open] + value + [close];
    assert quoted[|quoted| - 1] == close;
    KeyValueParse(key, quoted);
    StripBothQuotes(open, value, close);
  }

  lemma StripBothQuotes(open: char, value: string, close: char)
    requires IsQuote(open) && IsQuote(close)
    ensures StripQuotes([open] + value + [close]) == value
  {
    var quoted := [open] + value + [close];
    assert quoted[1..] == value + [close];
  }

  /** A quote at the start alone is dropped and the rest, inner quotes included, is kept. */
  lemma LeadingQuoteOnly(key: string, open: char, value: string)
    requires key != [] && '=' !in key && key[0] != '#' && !IsJsWhitespace(key[0])
    requires IsQuote(open)
    requires value != [] && !IsJsWhitespace(value[|value| - 1]) && !IsQuote(value[|value| - 1])
    ensures ParseLine(key + "=" + ([open] + value)) == Some((key, value))
  {
    var quoted := [open] + value;
    assert quoted[|quoted| - 1] == value[|value| - 1];
    KeyValueParse(key, quoted);
    StripLeadingQuote(open, value);
  }

  lemma StripLeadingQuote(open: char, value: string)
    requires IsQuote(open) && value != [] && !IsQuote(value[|value| - 1])
    ensures StripQuotes([open] + value) == value
  {
    assert ([open] + value)[1..] == value;
  }

  /** An unquoted assignment gives back its value when the value neither ends in blanks nor is quoted. */
  lemma PlainLineRoundTrip(key: string, value: string)
    requires key != [] && '=' !in key && key[0] != '#' && !IsJsWhitespace(key[0])
    requires value == [] || (!IsJsWhitespace(value[|value| - 1]) && !IsQuote(value[0]) && !IsQuote(value[|value| - 1]))
    ensures ParseLine(key + "=" + value) == Some((key, value))
  {
    KeyValueParse(key, value);
  }

  /** A variable is defined exactly when some assignment defines it. */
  lemma {:induction false} DefinedKeys(defs: seq<Option<(string, string)>>, key: string)
    ensures key in Assignments(defs) <==> exists i :: 0 <= i < |defs| && Defines(defs[i], key)
    decreases |defs|
  {
    if defs != [] {
      var n := |defs| - 1;
      var init := defs[..n];
      DefinedKeys(init, key);
      if key in Assignments(defs) {
        if !Defines(defs[n], key) {
          var i :| 0 <= i < |init| && Defines(init[i], key);
          assert defs[i] == init[i];
        }
      } else {
        forall i | 0 <= i < |defs|
          ensures !Defines(defs[i], key)
        {
          if i < n {
            assert defs[i] == init[i];
          }
        }
      }
    }
  }

  /** The last assignment to a variable decides its value. */
  lemma {:induction false} LastDefinitionWins(defs: seq<Option<(string, string)>>, i: nat, key: string)
    requires i < |defs| && Defines(defs[i], key)
    requires forall j :: i < j < |defs| ==> !Defines(defs[j], key)
    ensures key in Assignments(defs) && Assignments(defs)[key] == defs[i].value.1
    decreases |defs|
  {
    if i < |defs| - 1 {
      var init := defs[..|defs| - 1];
      assert init[i] == defs[i];
      forall j | i < j < |init|
        ensures !Defines(init[j], key)
      {
        assert init[j] == defs[j];
      }
      LastDefinitionWins(init, i, key);
    }
  }

  /** Loading succeeds exactly when the file exists and sets all three required variables. */
  lemma LoadSucceedsIffAllSet(content: string)
    ensures var env := ParseEnv(Split(content, '\n'));
      FirstMissing(env, RequiredVars).None? <==>
        IsSet(env, "DISCORD_WEBHOOK_URL") && IsSet(env, "MANUAL_TRIGGER_SECRET_KEY") && IsSet(env, "ENCRYPTION_SECRET_KEY")
  {
    var env := ParseEnv(Split(content, '\n'));
    assert RequiredVars[0] == "DISCORD_WEBHOOK_URL";
    assert RequiredVars[1] == "MANUAL_TRIGGER_SECRET_KEY";
    assert RequiredVars[2] == "ENCRYPTION_SECRET_KEY";
  }

  // ---------------------------------------------------------------------------
  // Configuration consistency
  // ---------------------------------------------------------------------------

  /** The six collections, numbered in the order the script checks them. */
  const FieldCount: nat := 6

  /** `hasOwnProperty`: the collection is there, even if it is `null`. */
  predicate Present(c: Config, f: nat)
    requires f < FieldCount
  {
    match f
    case 0 => !c.countdowns.Missing?
    case 1 => !c.yearlyTasks.Missing?
    case 2 => !c.monthlyTasks.Missing?
    case 3 => !c.weeklyTasks.Missing?
    case 4 => !c.specificWeekTasks.Missing?
    case _ => !c.lastWeekTasks.Missing?
  }

  /** `collection?.length || 0`. */
  function Count(c: Config, f: nat): nat
    requires f < FieldCount
  {
    match f
    case 0 => |c.countdowns.Elements()|
    case 1 => |c.yearlyTasks.Elements()|
    case 2 => |c.monthlyTasks.Elements()|
    case 3 => |c.weeklyTasks.Elements()|
    case 4 => |c.specificWeekTasks.Elements()|
    case _ => |c.lastWeekTasks.Elements()|
  }

  /** Countdowns are compared on name, target date and enabled flag; the message is not compared. */
  predicate SameCountdown(a: Countdown, b: Countdown) {
    a.name == b.name && a.targetDate == b.targetDate && a.enabled == b.enabled
  }

  /** What the script accepts as a faithful decryption of `original`. */
  predicate Consistent(original: Config, decrypted: Config) {
    var o := original.countdowns.Elements();
    var d := decrypted.countdowns.Elements();
    (forall f :: 0 <= f < FieldCount ==> Present(decrypted, f))
    && (forall f :: 0 <= f < FieldCount ==> Count(original, f) == Count(decrypted, f))
    && (forall i :: 0 <= i < |o| && i < |d| ==> SameCountdown(o[i], d[i]))
  }

  /** `validateConfigConsistency`: presence of every collection, equal sizes, equal countdowns. */
  method ValidateConfigConsistency(original: Config, decrypted: Config) returns (ok: bool)
    ensures ok <==> Consistent(original, decrypted)
  {
    for f := 0 to FieldCount
      invariant forall g :: 0 <= g < f ==> Present(decrypted, g)
    {
      if !Present(decrypted, f) {
        return false;
      }
    }
    for f := 0 to FieldCount
      invariant forall g :: 0 <= g < f ==> Count(original, g) == Count(decrypted, g)
    {
      if Count(original, f) != Count(decrypted, f) {
        return false;
      }
    }
    assert Count(original, 0) == Count(decrypted, 0);
    var o := original.countdowns.Elements();
    var d := decrypted.countdowns.Elements();
    if original.countdowns.Items? && |o| > 0 {
      for i := 0 to |o|
        invariant forall j :: 0 <= j < i ==> SameCountdown(o[j], d[j])
      {
        if !SameCountdown(o[i], d[i]) {
          return false;
        }
      }
    }
    return true;
  }

  /** A configuration passes against itself exactly when it has all six collections. */
  lemma ConsistentWithItself(c: Config)
    ensures Consistent(c, c) <==> forall f :: 0 <= f < FieldCount ==> Present(c, f)
  {
  }

  /**
    Only countdowns are compared item by item: a decrypted copy whose other
    collections hold different tasks of the same number still passes.
   */
  lemma ConsistencyIgnoresTaskContents(original: Config, decrypted: Config)
    requires forall f :: 0 <= f < FieldCount ==> Present(decrypted, f)
    requires original.countdowns == decrypted.countdowns
    requires forall f :: 1 <= f < FieldCount ==> Count(original, f) == Count(decrypted, f)
    ensures Consistent(original, decrypted)
  {
  }
}
