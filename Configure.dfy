/**
 * Configuration lookup of the gateway (configure.py): a secret comes from the
 * process environment or, failing that, from a bash file of `export KEY=value`
 * lines. The file's text and the environment are parameters; reading the file
 * is I/O and an unreadable file is the `Unreadable` error.
 */
module Configure {
  import opened Wrappers
  import opened Text

  /** The request header that carries the shared secret (configure.py:48). */
  const ApiAuthSecretHeaderName: string := "API_AUTH_SECRET"

  /** Why `read_secret_from_file` raised. */
  datatype ConfigError =
    | Unreadable                    // the secrets file could not be read
    | MalformedLine(index: nat)     // IndexError: the line at `index` has no '='
    | MissingSecret(name: string)   // KeyError: no line defines `name`

  /** Lines starting with '#' are skipped, whatever else they contain. */
  predicate IsComment(line: string)
  {
    StartsWith(line, "#")
  }

  /** The text a line is split on: every "export" removed, then stripped. */
  function Assignment(line: string): string
  {
    Strip(RemoveAll(line, "export"))
  }

  /**
   * The key and value of a non-comment line, split at the first '=': the key
   * is stripped and upper-cased, the value stripped. `None` when the line has
   * no '=' at all (the source then raises IndexError on `parts[1]`).
   */
  function ParseLine(line: string): (kv: Option<(string, string)>)
    ensures kv.Some? <==> '=' in line
    ensures kv.Some? ==> '=' !in kv.value.0
    ensures kv.Some? ==> forall i :: 0 <= i < |kv.value.0| ==> !IsLower(kv.value.0[i])
  {
    var t := Assignment(line);
    RemoveAllKeeps(line, "export", '=');
    StripKeeps(RemoveAll(line, "export"), '=');
    var i := Find(t, '=');
    if i < 0 then None
    else
      var key := Strip(t[..i]);
      StripKeeps(t[..i], '=');
      Some((Upper(key), Strip(t[i + 1..])))
  }

  /** Splitting at the FIRST '=' only: the value keeps any later '='. */
  lemma FirstEqualsSplits(line: string, before: string, after: string)
    requires Assignment(line) == before + "=" + after
    requires '=' !in before
    ensures ParseLine(line) == Some((Upper(Strip(before)), Strip(after)))
  {
    var t := Assignment(line);
    assert t[|before|] == '=';
    assert t[..|before|] == before;
    assert Find(t, '=') == |before|;
    assert t[|before| + 1..] == after;
  }

  /** `line` defines `key`: it is not a comment and parses to that key. */
  predicate Defines(line: string, key: string)
  {
    !IsComment(line) && ParseLine(line).Some? && ParseLine(line).value.0 == key
  }

  /**
   * One iteration of the loop of `read_secret_from_file`: a comment is skipped,
   * any other line inserts (or overwrites) its key, and a line without '='
   * aborts with its index. Once aborted, nothing changes.
   */
  function AddLine(acc: Result<map<string, string>, ConfigError>, line: string, index: nat)
    : Result<map<string, string>, ConfigError>
  {
    match acc
    case Failure(_) => acc
    case Success(d) =>
      if IsComment(line) then acc
      else
        match ParseLine(line)
        case None => Failure(MalformedLine(index))
        case Some(kv) => Success(d[kv.0 := kv.1])
  }

  /** The dictionary that `read_secret_from_file` builds from `lines`, or the error it raises. */
  function ParseSecrets(lines: seq<string>): Result<map<string, string>, ConfigError>
    decreases |lines|
  {
    if |lines| == 0 then Success(map[])
    else AddLine(ParseSecrets(lines[..|lines| - 1]), lines[|lines| - 1], |lines| - 1)
  }

  /** Parsing succeeds exactly when every non-comment line contains '='. */
  lemma {:induction false} ParseSucceedsIff(lines: seq<string>)
    ensures ParseSecrets(lines).Success? <==>
      forall i :: 0 <= i < |lines| && !IsComment(lines[i]) ==> '=' in lines[i]
    decreases |lines|
  {
    if |lines| > 0 {
      var n := |lines| - 1;
      ParseSucceedsIff(lines[..n]);
      assert forall i :: 0 <= i < n ==> lines[..n][i] == lines[i];
    }
  }

  /** A failure names the first non-comment line without '='. */
  lemma {:induction false} ParseFailsAtFirstMalformed(lines: seq<string>)
    requires ParseSecrets(lines).Failure?
    ensures ParseSecrets(lines).error.MalformedLine?
    ensures var k := ParseSecrets(lines).error.index;
      k < |lines| && !IsComment(lines[k]) && '=' !in lines[k]
      && forall i :: 0 <= i < k && !IsComment(lines[i]) ==> '=' in lines[i]
    decreases |lines|
  {
    var n := |lines| - 1;
    if ParseSecrets(lines[..n]).Failure? {
      ParseFailsAtFirstMalformed(lines[..n]);
    } else {
      ParseSucceedsIff(lines[..n]);
      assert forall i :: 0 <= i < n ==> lines[..n][i] == lines[i];
    }
  }

  /** Every key of a parsed file is upper-case and free of '='. */
  lemma {:induction false} ParsedKeysAreUpper(lines: seq<string>, key: string)
    requires ParseSecrets(lines).Success?
    requires key in ParseSecrets(lines).value
    ensures '=' !in key
    ensures forall i :: 0 <= i < |key| ==> !IsLower(key[i])
    decreases |lines|
  {
    var n := |lines| - 1;
    var line := lines[n];
    if IsComment(line) || ParseLine(line).value.0 != key {
      ParsedKeysAreUpper(lines[..n], key);
    }
  }

  /** A key that no non-comment line defines is absent from the parsed dictionary. */
  lemma {:induction false} UndefinedKeyAbsent(lines: seq<string>, key: string)
    requires ParseSecrets(lines).Success?
    requires forall i :: 0 <= i < |lines| ==> !Defines(lines[i], key)
    ensures key !in ParseSecrets(lines).value
    decreases |lines|
  {
    if |lines| > 0 {
      var n := |lines| - 1;
      assert !Defines(lines[n], key);
      UndefinedKeyAbsent(lines[..n], key);
    }
  }

  /** When several lines define a key, the value of the last of them is kept. */
  lemma {:induction false} LastDefinitionWins(lines: seq<string>, key: string, i: nat)
    requires ParseSecrets(lines).Success?
    requires i < |lines| && Defines(lines[i], key)
    requires forall j :: i < j < |lines| ==> !Defines(lines[j], key)
    ensures key in ParseSecrets(lines).value
    ensures ParseSecrets(lines).value[key] == ParseLine(lines[i]).value.1
    decreases |lines|
  {
    var n := |lines| - 1;
    var prefix := lines[..n];
    if i < n {
      assert prefix[i] == lines[i];
      assert forall j :: i < j < n ==> prefix[j] == lines[j];
      LastDefinitionWins(prefix, key, i);
      assert !Defines(lines[n], key);
    }
  }

  /** Once a prefix of the file fails to parse, the whole file fails with the same error. */
  lemma {:induction false} FailurePersists(lines: seq<string>, k: nat)
    requires k <= |lines|
    requires ParseSecrets(lines[..k]).Failure?
    ensures ParseSecrets(lines) == ParseSecrets(lines[..k])
    decreases |lines|
  {
    if k < |lines| {
      var n := |lines| - 1;
      assert lines[..n][..k] == lines[..k];
      FailurePersists(lines[..n], k);
    } else {
      assert lines[..k] == lines;
    }
  }

  /** What `read_secret_from_file(name)` returns or raises for a file with text `file`. */
  function LookupSecret(file: Option<string>, name: string): Result<string, ConfigError>
  {
    match file
    case None => Failure(Unreadable)
    case Some(text) =>
      match ParseSecrets(SplitLines(text))
      case Failure(e) => Failure(e)
      case Success(d) => if name in d then Success(d[name]) else Failure(MissingSecret(name))
  }

  /** A name with a lower-case letter is never found, since every key is upper-cased. */
  lemma LowerCaseNameNeverFound(file: Option<string>, name: string, i: nat)
    requires i < |name| && IsLower(name[i])
    ensures LookupSecret(file, name).Failure?
  {
    if file.Some? && ParseSecrets(SplitLines(file.value)).Success? {
      var d := ParseSecrets(SplitLines(file.value)).value;
      if name in d {
        ParsedKeysAreUpper(SplitLines(file.value), name);
      }
    }
  }

  /** The value of the last line of `file` that defines `name` is what the lookup returns. */
  lemma LookupFindsLastDefinition(text: string, name: string, i: nat)
    requires ParseSecrets(SplitLines(text)).Success?
    requires i < |SplitLines(text)| && Defines(SplitLines(text)[i], name)
    requires forall j :: i < j < |SplitLines(text)| ==> !Defines(SplitLines(text)[j], name)
    ensures LookupSecret(Some(text), name) == Success(ParseLine(SplitLines(text)[i]).value.1)
  {
    LastDefinitionWins(SplitLines(text), name, i);
  }

  /**
   * `read_secret_from_file`: builds the dictionary line by line, overwriting
   * earlier keys, then looks the secret up.
   */
  method ReadSecretFromFile(file: Option<string>, secretName: string) returns (r: Result<string, ConfigError>)
    ensures r == LookupSecret(file, secretName)
  {
    if file.None? {
      return Failure(Unreadable);
    }
    var lines := SplitLines(file.value);
    var d: map<string, string> := map[];
    var i := 0;
    while i < |lines|
      invariant 0 <= i <= |lines|
      invariant ParseSecrets(lines[..i]) == Success(d)
    {
      var line := lines[i];
      assert lines[..i + 1][..i] == lines[..i];
      if !StartsWith(line, "#") {
        match ParseLine(line)
        case None =>
          FailurePersists(lines, i + 1);
          return Failure(MalformedLine(i));
        case Some(kv) =>
          d := d[kv.0 := kv.1];
      }
      i := i + 1;
    }
    assert lines[..i] == lines;
    if secretName !in d {
      return Failure(MissingSecret(secretName));
    }
    return Success(d[secretName]);
  }

  /**
   * `get_environment_variable`: a variable set in the environment wins, even
   * when set to ""; only otherwise is the secrets file consulted.
   */
  method GetEnvironmentVariable(environment: map<string, string>, file: Option<string>, name: string)
    returns (r: Result<string, ConfigError>)
    ensures name in environment ==> r == Success(environment[name])
    ensures name !in environment ==> r == LookupSecret(file, name)
  {
    if name in environment {
      return Success(environment[name]);
    }
    r := ReadSecretFromFile(file, name);
  }
}
