/** Rewriting a `.env` file: old key lines out, trailing blanks off, a fresh block on. */
module EnvFile {
  import opened Outcomes
  import opened Text

  // In pieces, because the verifier cannot look into a literal of this length.
  const MARKER := "# API Key Security " + "Configuration " + "(auto-generated)"
  const SALT := "KEY_HASH_SALT"
  const VERSION := "KEY_VERSION"
  const KEYRING := "KEYRING_1"

  /** `"\n".join(lines)` */
  function Join(lines: seq<string>): string {
    if lines == [] then "" else Unlines(lines[..|lines| - 1]) + lines[|lines| - 1]
  }

  /** `text.split("\n")` */
  function Split(text: string): seq<string> {
    Lines(text) + [Tail(text)]
  }

  predicate IsKeyLine(line: string) {
    SALT + "=" <= line || VERSION + "=" <= line || KEYRING + "=" <= line
  }

  function Unkeyed(lines: seq<string>): seq<string> {
    if lines == [] then []
    else Unkeyed(lines[..|lines| - 1]) + if IsKeyLine(lines[|lines| - 1]) then [] else [lines[|lines| - 1]]
  }

  /** Without the blank lines at the end. */
  function Chop(lines: seq<string>): seq<string> {
    if lines != [] && Strip(lines[|lines| - 1]) == "" then Chop(lines[..|lines| - 1]) else lines
  }

  /** The lines of the old file that stay. */
  function Kept(content: string): seq<string> {
    Chop(Unkeyed(Split(content)))
  }

  function Separator(kept: seq<string>): seq<string> {
    if kept == [] then [] else [""]
  }

  /** The new lines; a final newline leaves an empty last piece. */
  function Block(salt: string, key: string): seq<string> {
    [MARKER, SALT + "=" + salt, VERSION + "=" + "1", KEYRING + "=" + key, ""]
  }

  /** The pieces of the new file. */
  function NewLines(content: string, salt: string, key: string): seq<string> {
    Kept(content) + Separator(Kept(content)) + Block(salt, key)
  }

  predicate Mentions(content: string, name: string) {
    exists i :: 0 <= i <= |content| && name + "=" <= content[i..]
  }

  /** Some key is already set, so that the user is asked before it is overwritten. */
  predicate Asks(content: string) {
    Mentions(content, SALT) || Mentions(content, VERSION) || Mentions(content, KEYRING)
  }

  // ----- Splitting and joining -----

  lemma InitFree(lines: seq<string>)
    requires lines != [] && NewlineFree(lines)
    ensures NewlineFree(lines[..|lines| - 1]) && '\n' !in lines[|lines| - 1]
  {
    forall line | line in lines[..|lines| - 1] ensures '\n' !in line {
      assert line in lines;
    }
  }

  lemma SplitCut(text: string, init: seq<string>, last: string)
    requires Cuts(text, init, last)
    ensures Split(text) == init + [last]
  {
    CutUnique(text, init, last);
  }

  lemma SplitJoin(lines: seq<string>)
    requires lines != [] && NewlineFree(lines)
    ensures Split(Join(lines)) == lines
  {
    var init, last := lines[..|lines| - 1], lines[|lines| - 1];
    InitFree(lines);
    SplitCut(Join(lines), init, last);
    assert lines == init + [last];
  }

  lemma JoinConcat(a: seq<string>, b: seq<string>)
    requires b != []
    ensures Join(a + b) == Unlines(a) + Join(b)
  {
    var init, last := b[..|b| - 1], b[|b| - 1];
    assert (a + b)[..|a + b| - 1] == a + init;
    UnlinesConcat(a, init);
    LinesAssociate(Unlines(a) + (Unlines(init) + last), Unlines(a), Unlines(init) + last, Unlines(init), last);
  }

  lemma {:induction false} UnkeyedSubset(lines: seq<string>)
    ensures forall line <- Unkeyed(lines) :: line in lines && !IsKeyLine(line)
  {
    if lines != [] {
      UnkeyedSubset(lines[..|lines| - 1]);
    }
  }

  lemma {:induction false} ChopPrefix(lines: seq<string>)
    ensures Chop(lines) <= lines
    ensures Chop(lines) != [] ==> Strip(Chop(lines)[|Chop(lines)| - 1]) != ""
  {
    if lines != [] && Strip(lines[|lines| - 1]) == "" {
      ChopPrefix(lines[..|lines| - 1]);
    }
  }

  lemma KeptNewlineFree(content: string)
    ensures NewlineFree(Kept(content)) && forall line <- Kept(content) :: !IsKeyLine(line)
  {
    LinesCut(content);
    var lines := Split(content);
    assert NewlineFree(lines);
    UnkeyedSubset(lines);
    var filtered := Unkeyed(lines);
    ChopPrefix(filtered);
    forall line | line in Kept(content) ensures '\n' !in line && !IsKeyLine(line) {
      assert line in filtered && line in lines;
    }
  }

  // ----- The literal words -----

  lemma Words()
    ensures SALT + "=" == "KEY_HASH_SALT=" && VERSION + "=" == "KEY_VERSION=" && KEYRING + "=" == "KEYRING_1="
  {
  }

  /** The line begins with one of the three assignments. */
  predicate SetsKey(line: string) {
    "KEY_HASH_SALT=" <= line || "KEY_VERSION=" <= line || "KEYRING_1=" <= line
  }

  lemma KeyLineIff(line: string)
    ensures IsKeyLine(line) <==> SetsKey(line)
  {
    Words();
  }

  lemma AsksIff(content: string)
    ensures Asks(content) <==> exists i :: 0 <= i <= |content| && SetsKey(content[i..])
  {
    Words();
    if i :| 0 <= i <= |content| && SetsKey(content[i..]) {
      KeyLineIff(content[i..]);
    }
    if name :| name in NAMES && Mentions(content, name) {
      var i :| 0 <= i <= |content| && name + "=" <= content[i..];
      assert SetsKey(content[i..]);
    }
  }

  lemma {:induction false} UnkeyedKeeps(lines: seq<string>)
    ensures forall line <- lines :: !IsKeyLine(line) ==> line in Unkeyed(lines)
  {
    if lines != [] {
      var init, last := lines[..|lines| - 1], lines[|lines| - 1];
      assert lines == init + [last];
      UnkeyedKeeps(init);
    }
  }

  lemma {:induction false} ChopKeeps(lines: seq<string>)
    ensures forall line <- lines :: Strip(line) != "" ==> line in Chop(lines)
  {
    if lines != [] && Strip(lines[|lines| - 1]) == "" {
      assert lines == lines[..|lines| - 1] + [lines[|lines| - 1]];
      ChopKeeps(lines[..|lines| - 1]);
    }
  }

  /** A line of the old file that is not blank stays exactly when it does not begin with one of the three assignments;
      every line that stays is a line of the old file. */
  lemma KeptMeaning(content: string, line: string)
    ensures line in Kept(content) ==> line in Split(content)
    ensures line in Split(content) && Strip(line) != "" ==> (line in Kept(content) <==> !SetsKey(line))
  {
    var lines := Split(content);
    UnkeyedSubset(lines);
    UnkeyedKeeps(lines);
    ChopPrefix(Unkeyed(lines));
    ChopKeeps(Unkeyed(lines));
    KeyLineIff(line);
    assert line in Kept(content) ==> line in Unkeyed(lines);
  }

  lemma BlockIs(salt: string, key: string)
    ensures Block(salt, key)
         == ["# API Key Security " + "Configuration " + "(auto-generated)", "KEY_HASH_SALT=" + salt, "KEY_VERSION=1",
             "KEYRING_1=" + key, ""]
  {
    Words();
    assert VERSION + "=" + "1" == "KEY_VERSION=1";
  }

  // ----- The rewriting -----

  /** `generate_encryption_config` on an existing file; nothing is written when the user declines to overwrite. */
  method GenerateEncryptionConfig(content: string, salt: string, key: string, agrees: bool)
    returns (written: Option<string>)
    requires '\n' !in salt && '\n' !in key
    ensures written.None? <==> Asks(content) && !agrees
    ensures written.None? <==> !agrees && exists i :: 0 <= i <= |content| && SetsKey(content[i..])
    ensures written.Some? ==> written.value == Join(NewLines(content, salt, key))
    ensures written.Some? ==> Split(written.value) == NewLines(content, salt, key)
    ensures written.Some? ==>
      Split(written.value)
      == Kept(content) + (if Kept(content) == [] then [] else [""])
         + ["# API Key Security " + "Configuration " + "(auto-generated)", "KEY_HASH_SALT=" + salt, "KEY_VERSION=1",
            "KEYRING_1=" + key, ""]
  {
    AsksIff(content);
    if Asks(content) && !agrees {
      return None;
    }
    var lines := Split(content);
    var filtered := [];
    for i := 0 to |lines|
      invariant filtered == Unkeyed(lines[..i])
    {
      assert lines[..i + 1][..i] == lines[..i];
      if !IsKeyLine(lines[i]) {
        filtered := filtered + [lines[i]];
      }
    }
    assert lines[..|lines|] == lines;
    while filtered != [] && Strip(filtered[|filtered| - 1]) == ""
      invariant Chop(filtered) == Kept(content)
    {
      filtered := filtered[..|filtered| - 1];
    }
    assert filtered == Kept(content);
    var newContent := Join(filtered);
    ChopPrefix(Unkeyed(lines));
    JoinBlank(filtered);
    if Strip(newContent) != "" {
      newContent := newContent + "\n\n";
    }
    ghost var base := newContent;
    newContent := newContent + (MARKER + "\n");
    newContent := newContent + (SALT + "=" + salt + "\n");
    newContent := newContent + (VERSION + "=" + "1" + "\n");
    newContent := newContent + (KEYRING + "=" + key + "\n");
    AppendFour(base, MARKER + "\n", SALT + "=" + salt + "\n", VERSION + "=" + "1" + "\n", KEYRING + "=" + key + "\n");
    JoinBlock(filtered, salt, key);
    assert newContent == Join(NewLines(content, salt, key));
    NewLinesNewlineFree(content, salt, key);
    SplitJoin(NewLines(content, salt, key));
    BlockIs(salt, key);
    return Some(newContent);
  }

  lemma AppendFour(base: string, a: string, b: string, c: string, d: string)
    ensures base + a + b + c + d == base + (a + b + c + d)
  {
  }

  /** Joined kept lines are blank only when there are none. */
  lemma JoinBlank(kept: seq<string>)
    requires kept != [] ==> Strip(kept[|kept| - 1]) != ""
    ensures Strip(Join(kept)) == "" <==> kept == []
  {
    StripEmpty(Join(kept));
    if kept != [] {
      var last := kept[|kept| - 1];
      StripEmpty(last);
      var c :| c in last && !IsSpace(c);
      assert c in Join(kept);
    }
  }

  lemma BlockNewlineFree(salt: string, key: string)
    requires '\n' !in salt && '\n' !in key
    ensures NewlineFree(Block(salt, key))
  {
    assert '\n' !in "# API Key Security " && '\n' !in "Configuration " && '\n' !in "(auto-generated)";
    assert '\n' !in MARKER && '\n' !in SALT && '\n' !in VERSION && '\n' !in KEYRING;
    assert '\n' !in SALT + "=" + salt && '\n' !in VERSION + "=" + "1" && '\n' !in KEYRING + "=" + key;
  }

  lemma NewLinesNewlineFree(content: string, salt: string, key: string)
    requires '\n' !in salt && '\n' !in key
    ensures NewlineFree(NewLines(content, salt, key))
  {
    KeptNewlineFree(content);
    BlockNewlineFree(salt, key);
  }

  lemma UnlinesFour(a: string, b: string, c: string, d: string)
    ensures Unlines([a, b, c, d]) == (a + "\n") + (b + "\n") + (c + "\n") + (d + "\n")
  {
    assert [a, b, c, d][1..] == [b, c, d] && [b, c, d][1..] == [c, d] && [c, d][1..] == [d];
    assert Unlines([d]) == d + "\n" + Unlines([]);
    assert Unlines([c, d]) == c + "\n" + Unlines([d]);
    assert Unlines([b, c, d]) == b + "\n" + Unlines([c, d]);
  }

  lemma JoinBlock(kept: seq<string>, salt: string, key: string)
    ensures Join(kept + Separator(kept) + Block(salt, key))
         == (if kept == [] then "" else Join(kept) + "\n\n")
            + ((MARKER + "\n") + (SALT + "=" + salt + "\n") + (VERSION + "=" + "1" + "\n")
               + (KEYRING + "=" + key + "\n"))
  {
    var block := Block(salt, key);
    JoinConcat(kept + Separator(kept), block);
    UnlinesFour(block[0], block[1], block[2], block[3]);
    assert block[..4] == [block[0], block[1], block[2], block[3]];
    if kept != [] {
      JoinSeparated(kept);
    }
  }

  lemma JoinSeparated(kept: seq<string>)
    requires kept != []
    ensures Unlines(kept + [""]) == Join(kept) + "\n\n"
  {
    var init, last := kept[..|kept| - 1], kept[|kept| - 1];
    assert kept + [""] == init + [last, ""];
    UnlinesConcat(init, [last, ""]);
    assert [last, ""][1..] == [""] && [""][1..] == [];
    assert Unlines([""]) == "\n";
    assert Unlines([last, ""]) == last + "\n" + "\n";
    assert "\n" + "\n" == "\n\n";
  }

  // ----- What the file means -----

  const EXPORT := "export"

  /** The name before the `=`: stripped, and without a leading `export`. */
  function NameOf(text: string): string {
    var name := Strip(text);
    if EXPORT <= name && |EXPORT| < |name| && IsSpace(name[|EXPORT|]) then Strip(name[|EXPORT|..]) else name
  }

  /** The name and value a line assigns; comments and lines without `=` assign nothing. */
  function Assigned(line: string): Option<(string, string)> {
    var k := Find(line, '=');
    if k == |line| || "#" <= Strip(line) then None else Some((NameOf(line[..k]), line[k + 1..]))
  }

  predicate Assigns(line: string, name: string) {
    Assigned(line).Some? && Assigned(line).value.0 == name
  }

  function Assign(m: map<string, string>, line: string): map<string, string> {
    match Assigned(line)
    case None => m
    case Some((name, value)) => m[name := value]
  }

  /** The last assignment of a name wins. */
  function Assignments(lines: seq<string>): map<string, string> {
    if lines == [] then map[] else Assign(Assignments(lines[..|lines| - 1]), lines[|lines| - 1])
  }

  lemma AssignmentsAppend(lines: seq<string>, line: string)
    ensures Assignments(lines + [line]) == Assign(Assignments(lines), line)
  {
    assert (lines + [line])[..|lines|] == lines;
  }

  const NAMES := {SALT, VERSION, KEYRING}

  lemma {:induction false} AssignmentsConcat(a: seq<string>, b: seq<string>)
    ensures Assignments(a + b) == Assignments(a) + Assignments(b)
  {
    if b == [] {
      assert a + b == a;
    } else {
      assert (a + b)[..|a + b| - 1] == a + b[..|b| - 1];
      AssignmentsConcat(a, b[..|b| - 1]);
    }
  }

  lemma StripKeepsFirst(line: string)
    requires line != "" && !IsSpace(line[0])
    ensures Strip(line) != "" && Strip(line)[0] == line[0]
  {
    TrimRightShape(line);
    assert line[0..] == line && line[0] in line;
  }

  predicate Plain(name: string) {
    name != "" && Trimmed(name) && '=' !in name && name[0] !in {'#', EXPORT[0]}
  }

  /** A line that starts with `name=` assigns `name`. */
  lemma PlainAssignment(name: string, value: string)
    requires Plain(name)
    ensures Assigned(name + "=" + value) == Some((name, value))
  {
    var line := name + "=" + value;
    assert line[..|name|] == name && line[|name|] == '=';
    FindIs(line, |name|, '=');
    StripTrimmed(name);
    StripKeepsFirst(line);
    assert line[|name| + 1..] == value;
  }

  /** So does an exported one. */
  lemma ExportedAssignment(name: string, value: string)
    requires Plain(name)
    ensures Assigned("export " + name + "=" + value) == Some((name, value))
  {
    var left := "export " + name;
    var line := left + "=" + value;
    assert line[..|left|] == left && line[|left|] == '=';
    FindIs(line, |left|, '=');
    StripTrimmed(left);
    StripKeepsFirst(line);
    assert left[|EXPORT|..] == [' '] + name;
    assert TrimLeft([' '] + name) == TrimLeft(([' '] + name)[1..]) == TrimLeft(name);
    StripTrimmed(name);
    assert line[|left| + 1..] == value;
  }

  lemma NamesArePlain(name: string)
    requires name in NAMES
    ensures Plain(name)
  {
  }

  lemma KeyLineAssigns(line: string)
    requires IsKeyLine(line)
    ensures Assigned(line).Some? && Assigned(line).value.0 in NAMES
  {
    var name := if SALT + "=" <= line then SALT else if VERSION + "=" <= line then VERSION else KEYRING;
    NamesArePlain(name);
    var n := |name + "="|;
    assert line == name + "=" + line[n..];
    PlainAssignment(name, line[n..]);
  }

  lemma BlankAssignsNothing(line: string)
    requires Strip(line) == ""
    ensures Assigned(line) == None
  {
    StripEmpty(line);
    assert Find(line, '=') < |line| ==> '=' in line;
  }

  lemma {:induction false} ChopAssigns(lines: seq<string>)
    ensures Assignments(Chop(lines)) == Assignments(lines)
  {
    if lines != [] && Strip(lines[|lines| - 1]) == "" {
      BlankAssignsNothing(lines[|lines| - 1]);
      ChopAssigns(lines[..|lines| - 1]);
    }
  }

  function Lookup(m: map<string, string>, name: string): Option<string> {
    if name in m then Some(m[name]) else None
  }

  /** The two agree on every name that is not one of the three. */
  ghost predicate AgreeElsewhere(a: map<string, string>, b: map<string, string>) {
    forall name :: name !in NAMES ==> Lookup(a, name) == Lookup(b, name)
  }

  lemma UnkeyedTake(lines: seq<string>)
    requires lines != []
    ensures var init, last := lines[..|lines| - 1], lines[|lines| - 1];
      Unkeyed(lines) == if IsKeyLine(last) then Unkeyed(init) else Unkeyed(init) + [last]
  {
  }

  lemma AssignAt(m: map<string, string>, line: string, name: string)
    ensures Lookup(Assign(m, line), name)
         == if Assigns(line, name) then Some(Assigned(line).value.1) else Lookup(m, name)
  {
  }

  lemma {:induction false} UnkeyedLookup(lines: seq<string>, name: string)
    requires name !in NAMES
    ensures Lookup(Assignments(Unkeyed(lines)), name) == Lookup(Assignments(lines), name)
  {
    if lines != [] {
      var init, last := lines[..|lines| - 1], lines[|lines| - 1];
      UnkeyedLookup(init, name);
      UnkeyedTake(lines);
      AssignAt(Assignments(init), last, name);
      if IsKeyLine(last) {
        KeyLineAssigns(last);
      } else {
        AssignmentsAppend(Unkeyed(init), last);
        AssignAt(Assignments(Unkeyed(init)), last, name);
      }
    }
  }

  lemma UnkeyedAssigns(lines: seq<string>)
    ensures AgreeElsewhere(Assignments(Unkeyed(lines)), Assignments(lines))
  {
    forall name | name !in NAMES
      ensures Lookup(Assignments(Unkeyed(lines)), name) == Lookup(Assignments(lines), name)
    {
      UnkeyedLookup(lines, name);
    }
  }

  function Settings(salt: string, key: string): map<string, string> {
    map[SALT := salt, VERSION := "1", KEYRING := key]
  }

  lemma MarkerAssignsNothing()
    ensures Assigned(MARKER) == None && Strip(MARKER) != "" && !IsKeyLine(MARKER)
  {
    assert MARKER[0] == '#';
    StripKeepsFirst(MARKER);
  }

  /** The single lines of a block, one after the other. */
  lemma BlockPieces(salt: string, key: string)
    ensures Block(salt, key)
         == [MARKER] + ([SALT + "=" + salt] + ([VERSION + "=" + "1"] + ([KEYRING + "=" + key] + [""])))
  {
  }

  lemma SettingAssigns(name: string, value: string)
    requires name in NAMES
    ensures Assigned(name + "=" + value) == Some((name, value))
    ensures Assignments([name + "=" + value]) == map[name := value]
  {
    NamesArePlain(name);
    PlainAssignment(name, value);
    AssignmentsAppend([], name + "=" + value);
    assert [] + [name + "=" + value] == [name + "=" + value];
  }

  lemma NothingAssigned(line: string)
    requires Assigned(line) == None
    ensures Assignments([line]) == map[]
  {
    AssignmentsAppend([], line);
    assert [] + [line] == [line];
  }

  lemma BlockAssigns(salt: string, key: string)
    ensures Assignments(Block(salt, key)) == Settings(salt, key)
  {
    var s, v, k := SALT + "=" + salt, VERSION + "=" + "1", KEYRING + "=" + key;
    BlockPieces(salt, key);
    MarkerAssignsNothing();
    BlankAssignsNothing("");
    NothingAssigned(MARKER);
    NothingAssigned("");
    SettingAssigns(SALT, salt);
    SettingAssigns(VERSION, "1");
    SettingAssigns(KEYRING, key);
    FiveAssign([MARKER], [s], [v], [k], [""]);
    MapsJoin(salt, key);
  }

  lemma FiveAssign(a: seq<string>, b: seq<string>, c: seq<string>, d: seq<string>, e: seq<string>)
    ensures Assignments(a + (b + (c + (d + e))))
         == Assignments(a) + (Assignments(b) + (Assignments(c) + (Assignments(d) + Assignments(e))))
  {
    AssignmentsConcat(d, e);
    AssignmentsConcat(c, d + e);
    AssignmentsConcat(b, c + (d + e));
    AssignmentsConcat(a, b + (c + (d + e)));
  }

  lemma MapsJoin(salt: string, key: string)
    ensures map[] + (map[SALT := salt] + (map[VERSION := "1"] + (map[KEYRING := key] + map[]))) == Settings(salt, key)
  {
    NamesDiffer();
  }

  lemma NamesDiffer()
    ensures SALT != VERSION && VERSION != KEYRING && KEYRING != SALT
  {
    assert |SALT| != |VERSION| && |VERSION| != |KEYRING| && |KEYRING| != |SALT|;
  }

  lemma KeptAssigns(content: string)
    ensures AgreeElsewhere(Assignments(Kept(content) + Separator(Kept(content))), Assignments(Split(content)))
  {
    var kept := Kept(content);
    AssignmentsConcat(kept, Separator(kept));
    assert Assigned("") == None;
    assert Assignments(Separator(kept)) == map[];
    ChopAssigns(Unkeyed(Split(content)));
    UnkeyedAssigns(Split(content));
  }

  lemma AssignmentsBlock(stay: seq<string>, salt: string, key: string)
    ensures Assignments(stay + Block(salt, key)) == Assignments(stay) + Settings(salt, key)
  {
    AssignmentsConcat(stay, Block(salt, key));
    BlockAssigns(salt, key);
  }

  /** The new file assigns what the old one did, with the three names overridden. */
  lemma RewriteMeaning(content: string, salt: string, key: string)
    ensures Assignments(NewLines(content, salt, key)) == Assignments(Split(content)) + Settings(salt, key)
  {
    var stay := Kept(content) + Separator(Kept(content));
    KeptAssigns(content);
    AssignmentsBlock(stay, salt, key);
    SettingsNames(salt, key);
    OverrideSame(Assignments(stay), Assignments(Split(content)), Settings(salt, key));
  }

  lemma SettingsNames(salt: string, key: string)
    ensures Settings(salt, key).Keys == NAMES
  {
  }

  lemma OverrideSame(a: map<string, string>, b: map<string, string>, over: map<string, string>)
    requires over.Keys == NAMES && AgreeElsewhere(a, b)
    ensures a + over == b + over
  {
    forall name ensures Lookup(a + over, name) == Lookup(b + over, name) {
      assert name in NAMES <==> name in over;
      assert name !in NAMES ==> Lookup(a, name) == Lookup(b, name);
    }
    SameLookups(a + over, b + over);
  }

  lemma SameLookups(a: map<string, string>, b: map<string, string>)
    requires forall name :: Lookup(a, name) == Lookup(b, name)
    ensures a == b
  {
    assert forall name :: name in a <==> Lookup(a, name).Some?;
    assert forall name :: name in b <==> Lookup(b, name).Some?;
  }

  /** How many lines assign a name. */
  function CountAssigning(lines: seq<string>, name: string): nat {
    if lines == [] then 0
    else CountAssigning(lines[..|lines| - 1], name) + CountLine(lines[|lines| - 1], name)
  }

  function CountLine(line: string, name: string): nat {
    if Assigns(line, name) then 1 else 0
  }

  lemma CountAppend(lines: seq<string>, line: string, name: string)
    ensures CountAssigning(lines + [line], name) == CountAssigning(lines, name) + CountLine(line, name)
  {
    assert (lines + [line])[..|lines|] == lines;
  }

  lemma {:induction false} CountConcat(a: seq<string>, b: seq<string>, name: string)
    ensures CountAssigning(a + b, name) == CountAssigning(a, name) + CountAssigning(b, name)
  {
    if b == [] {
      assert a + b == a;
    } else {
      assert (a + b)[..|a + b| - 1] == a + b[..|b| - 1];
      CountConcat(a, b[..|b| - 1], name);
    }
  }

  lemma {:induction false} CountChopped(lines: seq<string>, name: string)
    ensures CountAssigning(Chop(lines), name) == CountAssigning(lines, name)
  {
    if lines != [] && Strip(lines[|lines| - 1]) == "" {
      BlankAssignsNothing(lines[|lines| - 1]);
      CountChopped(lines[..|lines| - 1], name);
    }
  }

  /** A name is assigned by some line that is not a key line. */
  predicate AssignedElsewhere(lines: seq<string>, name: string) {
    exists i :: 0 <= i < |lines| && Assigns(lines[i], name) && !IsKeyLine(lines[i])
  }

  lemma ElsewhereTake(lines: seq<string>, name: string)
    requires lines != []
    ensures var init, last := lines[..|lines| - 1], lines[|lines| - 1];
      AssignedElsewhere(lines, name) <==> AssignedElsewhere(init, name) || (Assigns(last, name) && !IsKeyLine(last))
  {
    var init := lines[..|lines| - 1];
    assert forall i :: 0 <= i < |init| ==> init[i] == lines[i];
  }

  lemma {:induction false} CountUnkeyed(lines: seq<string>, name: string)
    ensures CountAssigning(Unkeyed(lines), name) == 0 <==> !AssignedElsewhere(lines, name)
  {
    if lines != [] {
      var init, last := lines[..|lines| - 1], lines[|lines| - 1];
      CountUnkeyed(init, name);
      UnkeyedTake(lines);
      CountAppend(Unkeyed(init), last, name);
      ElsewhereTake(lines, name);
    }
  }

  lemma CountOne(line: string, name: string)
    ensures CountAssigning([line], name) == CountLine(line, name)
  {
    CountAppend([], line, name);
    assert [] + [line] == [line];
  }

  lemma SettingCounts(setting: string, value: string, name: string)
    requires setting in NAMES
    ensures CountAssigning([setting + "=" + value], name) == if setting == name then 1 else 0
  {
    SettingAssigns(setting, value);
    CountOne(setting + "=" + value, name);
  }

  lemma BlockCounts(salt: string, key: string, name: string)
    requires name in NAMES
    ensures CountAssigning(Block(salt, key), name) == 1
  {
    var s, v, k := SALT + "=" + salt, VERSION + "=" + "1", KEYRING + "=" + key;
    BlockPieces(salt, key);
    MarkerAssignsNothing();
    BlankAssignsNothing("");
    CountOne(MARKER, name);
    CountOne("", name);
    SettingCounts(SALT, salt, name);
    SettingCounts(VERSION, "1", name);
    SettingCounts(KEYRING, key, name);
    CountConcat([k], [""], name);
    CountConcat([v], [k] + [""], name);
    CountConcat([s], [v] + ([k] + [""]), name);
    CountConcat([MARKER], [s] + ([v] + ([k] + [""])), name);
    NamesDiffer();
  }

  /** Each of the three names is assigned on exactly one line, unless the old file assigns it on a line that does not
      start with it: an indented or exported assignment stays, and is overridden. */
  lemma AssignedOnce(content: string, salt: string, key: string, name: string)
    requires name in NAMES
    ensures CountAssigning(NewLines(content, salt, key), name) == 1 <==> !AssignedElsewhere(Split(content), name)
  {
    CountNewLines(content, salt, key, name);
    CountChopped(Unkeyed(Split(content)), name);
    CountUnkeyed(Split(content), name);
  }

  lemma CountNewLines(content: string, salt: string, key: string, name: string)
    requires name in NAMES
    ensures CountAssigning(NewLines(content, salt, key), name) == CountAssigning(Kept(content), name) + 1
  {
    var kept := Kept(content);
    CountConcat(kept + Separator(kept), Block(salt, key), name);
    CountConcat(kept, Separator(kept), name);
    assert Assigned("") == None;
    assert kept != [] ==> Separator(kept)[..0] == [];
    assert CountAssigning(Separator(kept), name) == 0;
    BlockCounts(salt, key, name);
  }

  // ----- Running it again -----

  lemma {:induction false} UnkeyedConcat(a: seq<string>, b: seq<string>)
    ensures Unkeyed(a + b) == Unkeyed(a) + Unkeyed(b)
  {
    if b == [] {
      assert a + b == a;
    } else {
      assert (a + b)[..|a + b| - 1] == a + b[..|b| - 1];
      UnkeyedConcat(a, b[..|b| - 1]);
    }
  }

  lemma {:induction false} UnkeyedId(lines: seq<string>)
    requires forall i :: 0 <= i < |lines| ==> !IsKeyLine(lines[i])
    ensures Unkeyed(lines) == lines
  {
    if lines != [] {
      var init, last := lines[..|lines| - 1], lines[|lines| - 1];
      assert lines == init + [last];
      UnkeyedId(init);
      UnkeyedTake(lines);
    }
  }

  lemma UnkeyedNewLines(content: string, salt: string, key: string)
    ensures Unkeyed(NewLines(content, salt, key)) == Kept(content) + Separator(Kept(content)) + [MARKER, ""]
  {
    var kept := Kept(content);
    KeptNewlineFree(content);
    UnkeyedConcat(kept + Separator(kept), Block(salt, key));
    assert !IsKeyLine("");
    UnkeyedId(kept + Separator(kept));
    UnkeyedBlock(salt, key);
  }

  lemma KeptAgain(content: string, salt: string, key: string)
    requires '\n' !in salt && '\n' !in key
    ensures Kept(Join(NewLines(content, salt, key))) == Kept(content) + Separator(Kept(content)) + [MARKER]
  {
    NewLinesNewlineFree(content, salt, key);
    SplitJoin(NewLines(content, salt, key));
    UnkeyedNewLines(content, salt, key);
    ChopToMarker(Kept(content) + Separator(Kept(content)));
  }

  /** A second run keeps everything but the key lines, so each run leaves one more marker comment behind; the
      assignments are those of the last run. */
  lemma RerunMeaning(content: string, salt: string, key: string, salt': string, key': string)
    requires '\n' !in salt && '\n' !in key
    ensures var again := Join(NewLines(content, salt, key));
      && Kept(again) == Kept(content) + Separator(Kept(content)) + [MARKER]
      && Assignments(NewLines(again, salt', key')) == Assignments(Split(content)) + Settings(salt', key')
  {
    var lines := NewLines(content, salt, key);
    KeptAgain(content, salt, key);
    NewLinesNewlineFree(content, salt, key);
    SplitJoin(lines);
    RewriteMeaning(content, salt, key);
    RewriteMeaning(Join(lines), salt', key');
    SettingsOverride(Assignments(Split(content)), salt, key, salt', key');
  }

  lemma SettingsOverride(m: map<string, string>, salt: string, key: string, salt': string, key': string)
    ensures m + Settings(salt, key) + Settings(salt', key') == m + Settings(salt', key')
  {
    assert Settings(salt, key).Keys == Settings(salt', key').Keys;
  }

  lemma ChopToMarker(stay: seq<string>)
    ensures Chop(stay + [MARKER, ""]) == stay + [MARKER]
  {
    MarkerAssignsNothing();
    assert Strip("") == "";
    assert (stay + [MARKER, ""])[..|stay| + 1] == stay + [MARKER];
  }

  lemma UnkeyedNext(lines: seq<string>, i: nat)
    requires i < |lines|
    ensures Unkeyed(lines[..i + 1])
         == if IsKeyLine(lines[i]) then Unkeyed(lines[..i]) else Unkeyed(lines[..i]) + [lines[i]]
  {
    assert lines[..i + 1][..i] == lines[..i];
  }

  lemma KeyLinesBetween(lines: seq<string>)
    requires |lines| == 5 && !IsKeyLine(lines[0]) && !IsKeyLine(lines[4])
    requires IsKeyLine(lines[1]) && IsKeyLine(lines[2]) && IsKeyLine(lines[3])
    ensures Unkeyed(lines) == [lines[0], lines[4]]
  {
    UnkeyedNext(lines, 0);
    UnkeyedNext(lines, 1);
    UnkeyedNext(lines, 2);
    UnkeyedNext(lines, 3);
    UnkeyedNext(lines, 4);
    assert lines[..0] == [] && lines[..5] == lines;
  }

  lemma SettingIsKeyLine(value: string)
    ensures IsKeyLine(SALT + "=" + value) && IsKeyLine(VERSION + "=" + value) && IsKeyLine(KEYRING + "=" + value)
  {
  }

  lemma UnkeyedBlock(salt: string, key: string)
    ensures Unkeyed(Block(salt, key)) == [MARKER, ""]
  {
    MarkerAssignsNothing();
    SettingIsKeyLine(salt);
    SettingIsKeyLine("1");
    SettingIsKeyLine(key);
    KeyLinesBetween(Block(salt, key));
  }
}
