/** The .env loader of the SDK (client/config.go) over the process environment. */
module EnvFile {
  import opened Options
  import opened Text

  /** White space as strings.TrimSpace sees it. */
  predicate IsSpace(c: char) {
    || c in {'\t', '\n', '\U{0B}', '\U{0C}', '\r', ' ', '\U{85}', '\U{A0}', '\U{1680}', '\U{2028}', '\U{2029}',
             '\U{202F}', '\U{205F}', '\U{3000}'}
    || '\U{2000}' <= c <= '\U{200A}'
  }

  function TrimLeft(s: string): string {
    if s != [] && IsSpace(s[0]) then TrimLeft(s[1..]) else s
  }

  function TrimRight(s: string): string {
    if s != [] && IsSpace(s[|s| - 1]) then TrimRight(s[..|s| - 1]) else s
  }

  function TrimSpace(s: string): string {
    TrimRight(TrimLeft(s))
  }

  /** Trimming takes away white space at both ends, and all of it. */
  lemma TrimSpaceMeans(s: string) returns (i: nat, j: nat)
    ensures i <= j <= |s| && TrimSpace(s) == s[i..j]
    ensures forall k :: 0 <= k < i || j <= k < |s| ==> IsSpace(s[k])
    ensures i < j ==> !IsSpace(s[i]) && !IsSpace(s[j - 1])
  {
    hide IsSpace;
    i := TrimLeftMeans(s);
    var n := TrimRightMeans(s[i..]);
    j := i + n;
    assert forall k :: j <= k < |s| ==> s[k] == s[i..][k - i];
    assert s[i..][..n] == s[i..j];
    if n == 0 {
      i, j := |s|, |s|;
    }
  }

  lemma {:induction false} TrimLeftMeans(s: string) returns (i: nat)
    ensures i <= |s| && TrimLeft(s) == s[i..]
    ensures (forall k :: 0 <= k < i ==> IsSpace(s[k])) && (i < |s| ==> !IsSpace(s[i]))
  {
    hide IsSpace;
    i := 0;
    if s != [] && IsSpace(s[0]) {
      i := TrimLeftMeans(s[1..]);
      i := i + 1;
      assert forall k :: 1 <= k < i ==> s[k] == s[1..][k - 1];
    }
  }

  lemma {:induction false} TrimRightMeans(s: string) returns (j: nat)
    ensures j <= |s| && TrimRight(s) == s[..j]
    ensures (forall k :: j <= k < |s| ==> IsSpace(s[k])) && (j > 0 ==> !IsSpace(s[j - 1]))
  {
    hide IsSpace;
    j := |s|;
    if s != [] && IsSpace(s[|s| - 1]) {
      j := TrimRightMeans(s[..|s| - 1]);
    }
  }

  /** Of the first 128 characters six are white space. */
  lemma SpaceInAscii(c: char)
    requires c < '\U{80}'
    ensures IsSpace(c) <==> c == ' ' || '\t' <= c <= '\r'
  {
  }

  function TrimExport(s: string): string {
    if |s| >= 7 && s[..7] == "export " then s[7..] else s
  }

  function Unquote(s: string): string {
    if |s| >= 2 && ((s[0] == '\"' && s[|s| - 1] == '\"') || (s[0] == '\'' && s[|s| - 1] == '\''))
    then s[1..|s| - 1] else s
  }

  /** The key and value of a line, unless it is blank, a comment, or no assignment to a key. */
  function ParseLine(line: string): Option<(string, string)> {
    var t := TrimSpace(line);
    if t == "" || t[0] == '#' then None
    else
      var u := TrimExport(t);
      var i := IndexOf(u, '=');
      if i == |u| then None
      else
        var key := TrimSpace(u[..i]);
        if key == "" then None else Some((key, Unquote(TrimSpace(u[i + 1..]))))
  }

  /** What the system accepts as an environment entry. */
  predicate Settable(key: string, value: string) {
    '\0' !in key && '\0' !in value
  }

  /** The lines of a file, without their line ends. */
  function Lines(text: string): seq<string> {
    if text == "" then []
    else
      var i := IndexOf(text, '\n');
      [DropCR(text[..i])] + (if i == |text| then [] else Lines(text[i + 1..]))
  }

  function DropCR(line: string): string {
    if line != [] && line[|line| - 1] == '\r' then line[..|line| - 1] else line
  }

  /** The first assignment to the key that can take effect. */
  function FirstAssignment(lines: seq<string>, key: string): Option<string> {
    if lines == [] then None
    else
      match ParseLine(lines[0])
      case Some((k, v)) => if k == key && Settable(k, v) then Some(v) else FirstAssignment(lines[1..], key)
      case None => FirstAssignment(lines[1..], key)
  }

  // ---------- The lines of a file ----------

  /** A line break ends the first line, and a carriage return before it is dropped. */
  lemma FirstLine(line: string, rest: string)
    requires '\n' !in line
    ensures Lines(line + (['\n'] + rest))
         == [if line != [] && line[|line| - 1] == '\r' then line[..|line| - 1] else line] + Lines(rest)
  {
    var text := line + (['\n'] + rest);
    FirstIndex(line, '\n', rest);
    assert text[..|line|] == line && text[|line| + 1..] == rest;
    if rest == "" {
      assert |line| != |text| && Lines(text) == [DropCR(line)] + Lines(rest);
    }
  }

  /** The text after the last line break is a line too, unless it is empty. */
  lemma LastLine(line: string)
    requires '\n' !in line
    ensures Lines(line) == if line == "" then []
                           else [if line[|line| - 1] == '\r' then line[..|line| - 1] else line]
  {
    if line != "" {
      assert line[..|line|] == line;
    }
  }

  /** A file of the given lines, each ended by a line break. */
  function FileOf(lines: seq<string>): string {
    if lines == [] then "" else lines[0] + (['\n'] + FileOf(lines[1..]))
  }

  predicate IsLine(line: string) {
    '\n' !in line && (line != "" ==> line[|line| - 1] != '\r')
  }

  lemma {:induction false} LinesOfFile(lines: seq<string>)
    requires forall i :: 0 <= i < |lines| ==> IsLine(lines[i])
    ensures Lines(FileOf(lines)) == lines
  {
    hide Lines;
    if lines == [] {
      LastLine("");
    } else {
      assert IsLine(lines[0]);
      LinesOfFile(lines[1..]);
      FirstLine(lines[0], FileOf(lines[1..]));
    }
  }

  // ---------- Loading a file ----------

  type Env = map<string, string>

  /** What the loader promises: variables that are set stay, the others get their first assignment. */
  ghost predicate Loaded(before: Env, lines: seq<string>, after: Env) {
    forall key :: (key in after <==> key in before || FirstAssignment(lines, key).Some?) &&
      (key in before ==> after[key] == before[key]) &&
      (key !in before && FirstAssignment(lines, key).Some? ==> after[key] == FirstAssignment(lines, key).value)
  }

  predicate WellFormedKey(key: string) {
    key != "" && key[0] != '#' && '=' !in key && forall c :: c in key ==> !IsSpace(c)
  }

  /** A text that reads as itself: no white space around it, and not in a pair of equal quotes. */
  predicate Plain(value: string) {
    value != "" ==>
      && !IsSpace(value[0]) && !IsSpace(value[|value| - 1])
      && !(|value| >= 2 && value[0] == value[|value| - 1] && (value[0] == '\"' || value[0] == '\''))
  }

  datatype Assignment = Assignment(key: string, value: string)

  function AssignmentLines(assignments: seq<Assignment>): seq<string> {
    seq(|assignments|, i requires 0 <= i < |assignments| => assignments[i].key + ("=" + assignments[i].value))
  }

  /** Well-formed keys and plain values on one line each. */
  predicate Assignable(a: Assignment) {
    WellFormedKey(a.key) && Plain(a.value) && '\0' !in a.key && '\0' !in a.value && '\n' !in a.value
  }

  /** The first of the assignments to its key. */
  predicate FirstToKey(assignments: seq<Assignment>, i: nat) {
    i < |assignments| && forall j :: 0 <= j < i ==> assignments[j].key != assignments[i].key
  }

  /** Every key that was not set has the value of its first line, the set ones are kept, and nothing else is set. */
  ghost predicate AllSet(before: Env, assignments: seq<Assignment>, after: Env) {
    && (forall i: nat :: FirstToKey(assignments, i) && assignments[i].key !in before ==>
          assignments[i].key in after && after[assignments[i].key] == assignments[i].value)
    && (forall key :: key in before ==> key in after && after[key] == before[key])
    && (forall key :: key in after ==>
          key in before || exists i :: 0 <= i < |assignments| && assignments[i].key == key)
  }

  class Process {
    var env: Env

    constructor (env: Env)
      ensures this.env == env
    {
      this.env := env;
    }

    method Setenv(key: string, value: string)
      modifies this
      ensures env == if Settable(key, value) then old(env)[key := value] else old(env)
    {
      if '\0' in key || '\0' in value {
        return;
      }
      env := env[key := value];
    }

    /** file is the text of the file, or None if there is none. */
    method LoadEnvFile(file: Option<string>)
      modifies this
      ensures Loaded(old(env), if file.Some? then Lines(file.value) else [], env)
      ensures file.None? ==> env == old(env)
      ensures forall assignments ::
                file == Some(FileOf(AssignmentLines(assignments))) && (forall a :: a in assignments ==> Assignable(a))
                ==> AllSet(old(env), assignments, env)
    {
      if file.None? {
        return;
      }
      var lines := Lines(file.value);
      for i := 0 to |lines|
        invariant Loaded(old(env), lines[..i], env)
      {
        hide ParseLine, Loaded;
        ghost var env0 := env;
        var parsed := ParseLine(lines[i]);
        if parsed.Some? {
          var (key, value) := parsed.value;
          if key !in env {
            Setenv(key, value);
          }
        }
        assert lines[..i + 1] == lines[..i] + [lines[i]];
        LoadedOneMore(old(env), lines[..i], lines[i], env0);
      }
      assert lines[..|lines|] == lines;
      hide *;
      forall assignments |
          file == Some(FileOf(AssignmentLines(assignments))) && (forall a :: a in assignments ==> Assignable(a))
        ensures AllSet(old(env), assignments, env)
      {
        FileSetsAll(old(env), assignments, env);
      }
    }
  }

  lemma {:induction false} FirstAssignmentAppend(lines: seq<string>, line: string, key: string)
    ensures FirstAssignment(lines + [line], key)
         == if FirstAssignment(lines, key).Some? then FirstAssignment(lines, key) else FirstAssignment([line], key)
  {
    hide ParseLine;
    if lines == [] {
      assert lines + [line] == [line];
    } else {
      FirstAssignmentAppend(lines[1..], line, key);
      assert (lines + [line])[1..] == lines[1..] + [line];
    }
  }

  /** The environment after one more line. */
  function AfterLine(env: Env, line: string): Env {
    match ParseLine(line)
    case None => env
    case Some((key, value)) => if key !in env && Settable(key, value) then env[key := value] else env
  }

  lemma LoadedOneMore(before: Env, lines: seq<string>, line: string, env: Env)
    requires Loaded(before, lines, env)
    ensures Loaded(before, lines + [line], AfterLine(env, line))
  {
    hide ParseLine, Settable, FirstAssignment;
    forall key
      ensures FirstAssignment(lines + [line], key)
           == if FirstAssignment(lines, key).Some? then FirstAssignment(lines, key) else Assigns(line, key)
    {
      FirstAssignmentAppend(lines, line, key);
      FirstAssignmentOfOne(line, key);
    }
  }

  /** What one line assigns to the key. */
  function Assigns(line: string, key: string): Option<string> {
    match ParseLine(line)
    case Some((k, v)) => if k == key && Settable(k, v) then Some(v) else None
    case None => None
  }

  lemma FirstAssignmentOfOne(line: string, key: string)
    ensures FirstAssignment([line], key) == Assigns(line, key)
  {
    hide ParseLine;
    assert [line][1..] == [];
  }

  /** Loading the same file a second time changes nothing, and the promise determines the result. */
  lemma LoadIsIdempotent(before: Env, lines: seq<string>, once: Env, twice: Env, other: Env)
    requires Loaded(before, lines, once) && Loaded(once, lines, twice) && Loaded(before, lines, other)
    ensures twice == once && other == once
  {
    hide FirstAssignment;
    forall key
      ensures key in twice <==> key in once
      ensures key in other <==> key in once
      ensures key in once ==> twice[key] == once[key] && other[key] == once[key]
    {
      var a := FirstAssignment(lines, key);
    }
  }

  // ---------- Quoted values ----------

  lemma TrimSpaceKeeps(s: string)
    requires s != [] && !IsSpace(s[0]) && !IsSpace(s[|s| - 1])
    ensures TrimSpace(s) == s
  {
  }

  lemma {:induction false} TrimRightAppend(head: string, s: string)
    requires head != [] && !IsSpace(head[|head| - 1])
    ensures TrimRight(head + s) == head + TrimRight(s)
  {
    hide IsSpace;
    if s == [] {
      assert head + s == head;
    } else {
      assert (head + s)[..|head + s| - 1] == head + s[..|s| - 1];
      TrimRightAppend(head, s[..|s| - 1]);
    }
  }

  lemma {:induction false} TrimRightCons(c: char, s: string)
    requires IsSpace(c)
    ensures TrimRight([c] + s) == if TrimRight(s) == "" then "" else [c] + TrimRight(s)
  {
    hide IsSpace;
    if s == [] {
      assert [c] + s == [c] && [c][..0] == "";
    } else {
      assert ([c] + s)[..|s|] == [c] + s[..|s| - 1];
      TrimRightCons(c, s[..|s| - 1]);
    }
  }

  /** White space at the end is trimmed only once. */
  lemma {:induction false} TrimSpaceAfterTrimRight(s: string)
    ensures TrimSpace(TrimRight(s)) == TrimSpace(s)
  {
    hide IsSpace;
    if s == [] {
    } else if IsSpace(s[0]) {
      assert [s[0]] + s[1..] == s;
      TrimRightCons(s[0], s[1..]);
      TrimSpaceAfterTrimRight(s[1..]);
    } else {
      assert [s[0]] + s[1..] == s;
      TrimRightAppend([s[0]], s[1..]);
      TrimRightTwice(s);
    }
  }

  lemma {:induction false} TrimRightTwice(s: string)
    ensures TrimRight(TrimRight(s)) == TrimRight(s)
  {
    hide IsSpace;
    if s != [] && IsSpace(s[|s| - 1]) {
      TrimRightTwice(s[..|s| - 1]);
    }
  }

  predicate IsQuote(c: char) {
    c == '\"' || c == '\''
  }

  /** A line KEY="v", or with single quotes, assigns exactly v, whatever v contains. */
  lemma QuotedValueIsExact(key: string, q: char, v: string)
    requires WellFormedKey(key) && IsQuote(q)
    ensures ParseLine(key + ("=" + ([q] + v + [q]))) == Some((key, v))
  {
    hide IsSpace;
    var quoted := [q] + v + [q];
    assert !IsSpace(q) by { QuoteIsNoSpace(); }
    assert quoted[0] == q && quoted[|quoted| - 1] == q && quoted[1..|quoted| - 1] == v;
    TrimSpaceKeeps(quoted);
    UnquotedLine(key, quoted);
  }

  /** A line KEY=value assigns the value without the white space around it, and without quotes around that. */
  lemma UnquotedLine(key: string, value: string)
    requires WellFormedKey(key)
    ensures ParseLine(key + ("=" + value)) == Some((key, Unquote(TrimSpace(value))))
  {
    hide IsSpace, Unquote, TrimLeft, TrimRight;
    var rest := TrimRight(value);
    TrimmedLine(key, value);
    NoExportPrefix(key, rest);
    FirstIndex(key, '=', rest);
    var line := key + ("=" + rest);
    assert line[0] == key[0] && line[..|key|] == key && line[|key| + 1..] == rest;
    assert key[0] in key && key[|key| - 1] in key;
    TrimSpaceKeeps(key);
    TrimSpaceAfterTrimRight(value);
  }

  lemma NothingToTrim()
    ensures TrimSpace("") == ""
  {
  }

  /** A line KEY=value assigns exactly a plain value. */
  lemma PlainValueIsExact(key: string, value: string)
    requires WellFormedKey(key) && Plain(value)
    ensures ParseLine(key + ("=" + value)) == Some((key, value))
  {
    hide ParseLine, IsSpace, TrimSpace, WellFormedKey;
    UnquotedLine(key, value);
    if value == "" {
      NothingToTrim();
    } else {
      TrimSpaceKeeps(value);
    }
  }

  lemma TrimmedLine(key: string, value: string)
    requires WellFormedKey(key)
    ensures TrimSpace(key + ("=" + value)) == key + ("=" + TrimRight(value))
    ensures TrimRight(key + ("=" + value)) == key + ("=" + TrimRight(value))
  {
    hide IsSpace, TrimRight;
    var head := key + "=";
    assert !IsSpace('=') by { SomeNoSpaces(); }
    assert key[0] in key && head[0] == key[0];
    TrimRightAppend(head, value);
    assert head + value == key + ("=" + value) && head + TrimRight(value) == key + ("=" + TrimRight(value));
  }

  /** An export in front of an assignment makes no difference. */
  lemma ExportIsIgnored(key: string, value: string)
    requires WellFormedKey(key)
    ensures ParseLine("export " + (key + ("=" + value))) == ParseLine(key + ("=" + value))
  {
    hide IsSpace, Unquote, IndexOf, TrimRight;
    var line := key + ("=" + value);
    var exported := "export " + line;
    assert key[0] in key && line[0] == key[0];
    TrimmedLine(key, value);
    NoExportPrefix(key, TrimRight(value));
    assert !IsSpace('e') && TrimLeft(exported) == exported by { SomeNoSpaces(); }
    ExportedTrimmed(key, value);
    var trimmed := key + ("=" + TrimRight(value));
    assert ("export " + trimmed)[..7] == "export " && ("export " + trimmed)[7..] == trimmed;
  }

  lemma ExportedTrimmed(key: string, value: string)
    requires WellFormedKey(key)
    ensures TrimRight("export " + (key + ("=" + value))) == "export " + (key + ("=" + TrimRight(value)))
  {
    hide IsSpace, TrimRight;
    var head := "export " + key + "=";
    assert !IsSpace('=') by { SomeNoSpaces(); }
    TrimRightAppend(head, value);
    assert head + value == "export " + (key + ("=" + value));
    assert head + TrimRight(value) == "export " + (key + ("=" + TrimRight(value)));
  }

  /** A comment assigns nothing, whatever it says. */
  lemma CommentIsIgnored(comment: string)
    ensures ParseLine("#" + comment) == None
  {
    hide IsSpace, Unquote, IndexOf, TrimExport, TrimRight;
    assert !IsSpace('#') by { SomeNoSpaces(); }
    TrimRightAppend("#", comment);
    assert TrimLeft("#" + comment) == "#" + comment;
  }

  lemma SomeNoSpaces()
    ensures !IsSpace('e') && !IsSpace('=') && !IsSpace('#')
  {
  }

  lemma QuoteIsNoSpace()
    ensures !IsSpace('\"') && !IsSpace('\'')
  {
  }

  lemma NoExportPrefix(key: string, rest: string)
    requires WellFormedKey(key)
    ensures TrimExport(key + ("=" + rest)) == key + ("=" + rest)
  {
    var line := key + ("=" + rest);
    assert '=' !in "export " && IsSpace("export "[6]);
    if |key| > 6 {
      assert key[6] in key && line[..7][6] == key[6];
    } else if |line| >= 7 {
      assert line[..7][|key|] == '=';
    }
  }

  /** A file of that one line sets an unset well-formed key to exactly v, for any v without line breaks and NUL. */
  lemma QuotedLineSetsValue(before: Env, key: string, v: string, after: Env)
    requires WellFormedKey(key) && '\0' !in key && '\0' !in v && '\n' !in v && key !in before
    requires Loaded(before, Lines(key + ("=" + (['\"'] + v + ['\"']))), after)
    ensures after == before[key := v]
  {
    hide ParseLine, Lines, FirstAssignment;
    var line := key + ("=" + (['\"'] + v + ['\"']));
    QuotedValueIsExact(key, '\"', v);
    assert line[|line| - 1] == '\"';
    assert '\n' !in key by { assert IsSpace('\n'); }
    OneLine(line);
    forall k
      ensures FirstAssignment([line], k) == if k == key then Some(v) else None
    {
      FirstAssignmentOfOne(line, k);
    }
  }

  lemma OneLine(line: string)
    requires line != "" && '\n' !in line && line[|line| - 1] != '\r'
    ensures Lines(line) == [line]
  {
    assert line[..|line|] == line;
  }

  // ---------- Whole files of assignments ----------

  lemma AssignmentIsLine(a: Assignment)
    requires Assignable(a)
    ensures IsLine(a.key + ("=" + a.value))
    ensures ParseLine(a.key + ("=" + a.value)) == Some((a.key, a.value)) && Settable(a.key, a.value)
  {
    PlainValueIsExact(a.key, a.value);
    assert IsSpace('\n') && IsSpace('\r');
    var line := a.key + ("=" + a.value);
    assert line[|line| - 1] == if a.value == "" then '=' else a.value[|a.value| - 1];
  }

  lemma {:induction false} FirstOfAssignments(assignments: seq<Assignment>, key: string)
    requires forall a :: a in assignments ==> Assignable(a)
    ensures FirstAssignment(AssignmentLines(assignments), key).Some? ==>
              exists i :: 0 <= i < |assignments| && assignments[i].key == key
    ensures forall i: nat :: FirstToKey(assignments, i) && assignments[i].key == key ==>
              FirstAssignment(AssignmentLines(assignments), key) == Some(assignments[i].value)
  {
    hide ParseLine, Assignable, Settable;
    if assignments != [] {
      var a, rest := assignments[0], assignments[1..];
      assert Assignable(a) && forall i :: 0 <= i < |rest| ==> Assignable(rest[i]);
      AssignmentIsLine(a);
      FirstOfAssignments(rest, key);
      assert AssignmentLines(assignments)[1..] == AssignmentLines(rest);
      assert forall i :: 1 <= i < |assignments| ==> assignments[i] == rest[i - 1];
      if a.key != key {
        assert FirstAssignment(AssignmentLines(assignments), key) == FirstAssignment(AssignmentLines(rest), key);
        forall i: nat | FirstToKey(assignments, i) && assignments[i].key == key
          ensures FirstToKey(rest, i - 1)
        {
        }
      }
    }
  }

  lemma FileSetsAll(before: Env, assignments: seq<Assignment>, after: Env)
    requires forall a :: a in assignments ==> Assignable(a)
    requires Loaded(before, Lines(FileOf(AssignmentLines(assignments))), after)
    ensures AllSet(before, assignments, after)
  {
    hide Lines, FileOf, FirstAssignment, Assignable, IsLine;
    var lines := AssignmentLines(assignments);
    forall i | 0 <= i < |lines|
      ensures IsLine(lines[i])
    {
      AssignmentIsLine(assignments[i]);
    }
    LinesOfFile(lines);
    forall key
      ensures FirstAssignment(lines, key).Some? ==> exists i :: 0 <= i < |assignments| && assignments[i].key == key
      ensures forall i: nat :: FirstToKey(assignments, i) && assignments[i].key == key ==>
                FirstAssignment(lines, key) == Some(assignments[i].value)
    {
      FirstOfAssignments(assignments, key);
    }
  }

  /** A line with a NUL in its key or value sets nothing. */
  lemma NulSetsNothing(before: Env, line: string, after: Env)
    requires match ParseLine(line) case Some((key, value)) => '\0' in key || '\0' in value case None => true
    requires Loaded(before, [line], after)
    ensures after == before
  {
    hide ParseLine, FirstAssignment;
    forall key
      ensures FirstAssignment([line], key) == None
    {
      FirstAssignmentOfOne(line, key);
    }
  }
}
