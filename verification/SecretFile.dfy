/**
 The HMAC secret file the njs module reads on every request, and the three
 lines an operator writes into it when a secret is rotated.
 */
module SecretFile {
  import opened Prelude
  import opened Text

  const SECRET := "hmac_secret="
  const SECRET_OLD := "hmac_secret_old="
  const ROTATION_EXPIRES := "rotation_expires="

  /**
   What a request gets from the file. The expiry is a JavaScript date, whose
   time is NaN (inner `None`) when the text is not a date.
   */
  datatype SecretData = SecretData(secret: string, secretOld: Option<string>, rotationExpires: Option<Option<int>>)

  /** The raw values found in the file; `None` where no line carries the prefix. */
  datatype Fields = Fields(secret: Option<string>, secretOld: Option<string>, rotationExpires: Option<string>)

  function TrimJs(s: string): string {
    Trim(s, IsJsSpace)
  }

  // ---------- specification ----------

  /** The value on the last line that starts with the prefix. */
  function LastWith(prefix: string, lines: seq<string>): Option<string> {
    if lines == [] then None else
      var line := TrimJs(lines[|lines| - 1]);
      if prefix <= line then Some(line[|prefix|..]) else LastWith(prefix, lines[..|lines| - 1])
  }

  function FieldsOf(lines: seq<string>): Fields {
    Fields(LastWith(SECRET, lines), LastWith(SECRET_OLD, lines), LastWith(ROTATION_EXPIRES, lines))
  }

  /** JavaScript truth: neither null nor the empty string. */
  predicate Truthy(s: Option<string>) {
    s.Some? && s.value != ""
  }

  function Decode(f: Fields, parseDate: string -> Option<int>): Option<SecretData> {
    if !Truthy(f.secret) then None else
      Some(SecretData(
             f.secret.value,
             if Truthy(f.secretOld) then f.secretOld else None,
             if Truthy(f.rotationExpires) then Some(parseDate(f.rotationExpires.value)) else None))
  }

  /** `None` as file: no file is configured, or it cannot be read. */
  function Secrets(file: Option<string>, parseDate: string -> Option<int>): Option<SecretData> {
    match file
    case None => None
    case Some(content) => Decode(FieldsOf(Split(content, '\n')), parseDate)
  }

  // ---------- the loop ----------

  /** No line starts with two of the prefixes: in particular `hmac_secret=` never catches `hmac_secret_old=`. */
  lemma PrefixesExclusive(line: string)
    ensures !(SECRET <= line && SECRET_OLD <= line)
    ensures !(SECRET <= line && ROTATION_EXPIRES <= line)
    ensures !(SECRET_OLD <= line && ROTATION_EXPIRES <= line)
  {
    assert SECRET[11] == '=' && SECRET_OLD[11] == '_';
    assert SECRET[0] == 'h' && SECRET_OLD[0] == 'h' && ROTATION_EXPIRES[0] == 'r';
  }

  lemma NextLine(lines: seq<string>, i: nat)
    requires i < |lines|
    ensures var line, f := TrimJs(lines[i]), FieldsOf(lines[..i]);
            FieldsOf(lines[..i + 1]) ==
            if SECRET <= line then f.(secret := Some(line[|SECRET|..]))
            else if SECRET_OLD <= line then f.(secretOld := Some(line[|SECRET_OLD|..]))
            else if ROTATION_EXPIRES <= line then f.(rotationExpires := Some(line[|ROTATION_EXPIRES|..]))
            else f
  {
    assert lines[..i + 1][..i] == lines[..i];
    PrefixesExclusive(TrimJs(lines[i]));
  }

  /** The scan of `loadHmacSecret`: an else-if chain over the lines, later lines overwriting earlier ones. */
  method LoadHmacSecret(file: Option<string>, parseDate: string -> Option<int>) returns (r: Option<SecretData>)
    ensures r == Secrets(file, parseDate)
  {
    if file == None {
      return None;
    }
    var lines := Split(file.value, '\n');
    var secret: Option<string>, secretOld: Option<string>, rotationExpires: Option<string> := None, None, None;
    for i := 0 to |lines|
      invariant Fields(secret, secretOld, rotationExpires) == FieldsOf(lines[..i])
    {
      var line := TrimJs(lines[i]);
      NextLine(lines, i);
      if SECRET <= line {
        secret := Some(line[|SECRET|..]);
      } else if SECRET_OLD <= line {
        secretOld := Some(line[|SECRET_OLD|..]);
      } else if ROTATION_EXPIRES <= line {
        rotationExpires := Some(line[|ROTATION_EXPIRES|..]);
      }
    }
    assert lines[..|lines|] == lines;
    if !Truthy(secret) {
      return None;
    }
    r := Some(SecretData(
                secret.value,
                if Truthy(secretOld) then secretOld else None,
                if Truthy(rotationExpires) then Some(parseDate(rotationExpires.value)) else None));
  }

  /** Without a file, without a line for the secret, or with an empty one there is no answer; else that line's value. */
  lemma SecretFound(file: Option<string>, parseDate: string -> Option<int>)
    ensures var found := if file.None? then None else LastWith("hmac_secret=", Split(file.value, '\n'));
            && (Secrets(file, parseDate).None? <==> found.None? || found.value == "")
            && (Secrets(file, parseDate).Some? ==> Some(Secrets(file, parseDate).value.secret) == found)
  {
  }

  // ---------- the file as it is written ----------

  function Render(secret: string, secretOld: string, expires: string): string {
    ("hmac_secret=" + secret) + ['\n']
    + (("hmac_secret_old=" + secretOld) + ['\n'] + (("rotation_expires=" + expires) + ['\n'] + ""))
  }

  /** A value that fits on its line: no line break in it and no white space at its end. */
  ghost predicate Clean(v: string) {
    '\n' !in v && (v != "" ==> !JsBlank(v[|v| - 1] as int))
  }

  lemma CleanLine(prefix: string, v: string)
    requires Clean(v) && prefix in [SECRET, SECRET_OLD, ROTATION_EXPIRES]
    ensures TrimJs(prefix + v) == prefix + v && '\n' !in prefix + v
  {
    if v != "" {
      SpacesByCode(v[|v| - 1]);
    }
    TrimKeeps(prefix + v, IsJsSpace);
  }

  lemma {:induction false} PartsHaveNoSeparator(s: string, sep: char)
    ensures forall p :: p in Split(s, sep) ==> sep !in p
  {
    if s != "" {
      PartsHaveNoSeparator(s[1..], sep);
      var rest := Split(s[1..], sep);
      assert rest[0] in rest;
      assert forall p :: p in rest[1..] ==> p in rest;
    }
  }

  lemma TrimmedIsClean(line: string)
    requires '\n' !in line
    ensures Clean(TrimJs(line))
  {
    var v := TrimJs(line);
    if v != "" {
      SpacesByCode(v[|v| - 1]);
    }
  }

  /** A later line with the same prefix replaces an earlier one; a line without it changes nothing. */
  lemma LaterLineWins(prefix: string, lines: seq<string>, v: string, other: string)
    requires prefix in [SECRET, SECRET_OLD, ROTATION_EXPIRES] && Clean(v) && !(prefix <= TrimJs(other))
    ensures LastWith(prefix, lines + [prefix + v]) == Some(v)
    ensures LastWith(prefix, lines + [other]) == LastWith(prefix, lines)
  {
    CleanLine(prefix, v);
    assert (lines + [prefix + v])[..|lines|] == lines && (lines + [other])[..|lines|] == lines;
  }

  lemma {:induction false} ValuesAreClean(prefix: string, lines: seq<string>)
    requires forall p :: p in lines ==> '\n' !in p
    ensures LastWith(prefix, lines).Some? ==> Clean(LastWith(prefix, lines).value)
  {
    if lines != [] {
      TrimmedIsClean(lines[|lines| - 1]);
      ValuesAreClean(prefix, lines[..|lines| - 1]);
    }
  }

  lemma RenderedLines(secret: string, secretOld: string, expires: string)
    requires Clean(secret) && Clean(secretOld) && Clean(expires)
    ensures Split(Render(secret, secretOld, expires), '\n')
         == [SECRET + secret, SECRET_OLD + secretOld, ROTATION_EXPIRES + expires, ""]
  {
    CleanLine(SECRET, secret);
    CleanLine(SECRET_OLD, secretOld);
    CleanLine(ROTATION_EXPIRES, expires);
    SplitCons(ROTATION_EXPIRES + expires, '\n', "");
    SplitCons(SECRET_OLD + secretOld, '\n', (ROTATION_EXPIRES + expires) + ['\n'] + "");
    SplitCons(SECRET + secret, '\n', (SECRET_OLD + secretOld) + ['\n'] + ((ROTATION_EXPIRES + expires) + ['\n'] + ""));
  }

  lemma FieldsOfRendered(secret: string, secretOld: string, expires: string)
    requires Clean(secret) && Clean(secretOld) && Clean(expires)
    ensures FieldsOf([SECRET + secret, SECRET_OLD + secretOld, ROTATION_EXPIRES + expires, ""])
         == Fields(Some(secret), Some(secretOld), Some(expires))
  {
    var l1, l2, l3 := SECRET + secret, SECRET_OLD + secretOld, ROTATION_EXPIRES + expires;
    var lines := [l1, l2, l3, ""];
    CleanLine(SECRET, secret);
    CleanLine(SECRET_OLD, secretOld);
    CleanLine(ROTATION_EXPIRES, expires);
    PrefixesExclusive(l1);
    PrefixesExclusive(l2);
    PrefixesExclusive(l3);
    assert lines[..3] == [l1, l2, l3] && lines[..3][..2] == [l1, l2] && lines[..3][..2][..1] == [l1];
    assert TrimJs("") == "";
    forall prefix | prefix in [SECRET, SECRET_OLD, ROTATION_EXPIRES]
      ensures LastWith(prefix, lines) == LastWith(prefix, [l1, l2, l3])
    {
    }
    assert LastWith(ROTATION_EXPIRES, [l1, l2, l3]) == Some(expires);
    assert [l1, l2, l3][..2] == [l1, l2] && [l1, l2][..1] == [l1];
    assert LastWith(SECRET_OLD, [l1, l2, l3]) == LastWith(SECRET_OLD, [l1, l2]) == Some(secretOld);
    assert LastWith(SECRET, [l1, l2, l3]) == LastWith(SECRET, [l1, l2]) == LastWith(SECRET, [l1]) == Some(secret);
  }

  /** The three lines are read back exactly when every value fits on its line. */
  lemma FileRoundTrip(secret: string, secretOld: string, expires: string)
    ensures FieldsOf(Split(Render(secret, secretOld, expires), '\n'))
            == Fields(Some(secret), Some(secretOld), Some(expires))
       <==> Clean(secret) && Clean(secretOld) && Clean(expires)
  {
    var lines := Split(Render(secret, secretOld, expires), '\n');
    if Clean(secret) && Clean(secretOld) && Clean(expires) {
      RenderedLines(secret, secretOld, expires);
      FieldsOfRendered(secret, secretOld, expires);
    }
    PartsHaveNoSeparator(Render(secret, secretOld, expires), '\n');
    ValuesAreClean(SECRET, lines);
    ValuesAreClean(SECRET_OLD, lines);
    ValuesAreClean(ROTATION_EXPIRES, lines);
  }
}
