/**
 The `.env` updater.  `updateEnv` edits the text of the file in place: it
 rewrites the first line that assigns the key, or appends a line.  The reader is
 the plain meaning of the format: one `KEY=value` per line, `#` starts a comment
 line, a value may stand in double quotes, and the last assignment wins.
 */
module EnvFile {
  import opened Options
  import opened Text

  // ------------------------------------------------------------------- lines

  predicate OneLine(s: string) {
    forall i | 0 <= i < |s| :: !IsTerminator(s[i])
  }

  /** The length of the first line of s. */
  function LineEnd(s: string): (n: nat)
    ensures n <= |s| && OneLine(s[..n])
    ensures n < |s| ==> IsTerminator(s[n])
  {
    if s == "" || IsTerminator(s[0]) then 0 else 1 + LineEnd(s[1..])
  }

  // ----------------------------------------------------------------- updater

  /**
   Where `^KEY=.*` first matches: `^` holds at the start of the text (`atStart`)
   and behind every terminator.  The match ends where its line ends.
   */
  function MatchAt(s: string, key: string, atStart: bool): (r: Option<nat>)
    ensures r.Some? ==> r.value <= |s|
  {
    if atStart && StartsWith(s, key + "=") then Some(0)
    else if s == "" then None
    else
      match MatchAt(s[1..], key, IsTerminator(s[0]))
      case None => None
      case Some(i) => Some(i + 1)
  }

  /** A `$` before one of these is a replacement pattern of `String.replace`. */
  predicate IsPatternChar(c: char) {
    c == '$' || c == '&' || c == '`' || c == '\''
  }

  function PatternText(c: char, before: string, matched: string, after: string): string {
    if c == '$' then "$" else if c == '&' then matched else if c == '`' then before else after
  }

  /** The replacement text for a match of a regular expression without groups. */
  function Expand(template: string, before: string, matched: string, after: string): string {
    if |template| >= 2 && template[0] == '$' && IsPatternChar(template[1]) then
      PatternText(template[1], before, matched, after) + Expand(template[2..], before, matched, after)
    else if template == "" then ""
    else [template[0]] + Expand(template[1..], before, matched, after)
  }

  /** The line an update writes in place of the match at `start`. */
  function Replacement(content: string, start: nat, key: string, value: string): string
    requires start <= |content|
  {
    var end := start + LineEnd(content[start..]);
    Expand(Assigned(key, value), content[..start], content[start..end], content[end..])
  }

  /** The text with the line at `start` replaced. */
  function Edited(s: string, start: nat, line: string): string
    requires start <= |s|
  {
    s[..start] + line + s[start + LineEnd(s[start..])..]
  }

  function Assigned(key: string, value: string): string {
    key + "=\"" + value + "\""
  }

  function UpdateSpec(content: string, key: string, value: string): string {
    if Contains(content, key + "=") then
      match MatchAt(content, key, true)
      case None => content
      case Some(start) => Edited(content, start, Replacement(content, start, key, value))
    else content + ("\n" + Assigned(key, value))
  }

  /** One configuration request: the settings in order, None for the ones left out. */
  type Updates = seq<(string, Option<string>)>

  function UpdateAllSpec(content: string, updates: Updates): string
    decreases |updates|
  {
    if updates == [] then content
    else
      var (key, value) := updates[0];
      UpdateAllSpec(if value.None? then content else UpdateSpec(content, key, value.value), updates[1..])
  }

  function EnvAfter(env: map<string, string>, updates: Updates): map<string, string>
    decreases |updates|
  {
    if updates == [] then env
    else
      var (key, value) := updates[0];
      EnvAfter(if value.None? then env else env[key := value.value], updates[1..])
  }

  class EnvEditor {
    var envContent: string
    var processEnv: map<string, string>

    method UpdateEnv(key: string, value: Option<string>)
      modifies this
      ensures envContent == (if value.None? then old(envContent) else UpdateSpec(old(envContent), key, value.value))
      ensures processEnv == (if value.None? then old(processEnv) else old(processEnv)[key := value.value])
    {
      if value.None? {
        return;
      }
      var found := Contains(envContent, key + "=");
      if found {
        var at := MatchAt(envContent, key, true);
        if at.Some? {
          var start := at.value;
          var end := start + LineEnd(envContent[start..]);
          envContent := envContent[..start]
            + Expand(Assigned(key, value.value), envContent[..start], envContent[start..end], envContent[end..])
            + envContent[end..];
        }
      } else {
        envContent := envContent + ("\n" + Assigned(key, value.value));
      }
      processEnv := processEnv[key := value.value];
    }

    /** The handlers call the closure for one setting after the other. */
    method UpdateConfig(updates: Updates)
      modifies this
      ensures envContent == UpdateAllSpec(old(envContent), updates)
      ensures processEnv == EnvAfter(old(processEnv), updates)
    {
      for i := 0 to |updates|
        invariant UpdateAllSpec(envContent, updates[i..]) == UpdateAllSpec(old(envContent), updates)
        invariant EnvAfter(processEnv, updates[i..]) == EnvAfter(old(processEnv), updates)
      {
        assert updates[i..][1..] == updates[i + 1..];
        UpdateEnv(updates[i].0, updates[i].1);
      }
    }
  }

  // ------------------------------------------------------------------ reader

  function Unquoted(v: string): string {
    if v != "" && v[0] == '"' && IndexOf(v[1..], '"') < |v[1..]| then v[1..][..IndexOf(v[1..], '"')] else v
  }

  function ParseLine(line: string): map<string, string> {
    var i := IndexOf(line, '=');
    if line == "" || line[0] == '#' || i == |line| then map[]
    else map[line[..i] := Unquoted(line[i + 1..])]
  }

  function Lines(s: string): (ls: seq<string>)
    ensures ls != []
  {
    if s == "" then [""]
    else
      var ls := Lines(s[1..]);
      if IsTerminator(s[0]) then [""] + ls else [[s[0]] + ls[0]] + ls[1..]
  }

  /** Later lines override earlier ones. */
  function Merge(ls: seq<string>): map<string, string> {
    if ls == [] then map[] else ParseLine(ls[0]) + Merge(ls[1..])
  }

  function Parse(s: string): map<string, string> {
    Merge(Lines(s))
  }

  /** The number of lines that assign the key. */
  function Count(ls: seq<string>, key: string): nat {
    if ls == [] then 0 else AssignsOnce(ls[0], key) + Count(ls[1..], key)
  }

  function Assignments(s: string, key: string): nat {
    Count(Lines(s), key)
  }

  function AssignsOnce(line: string, key: string): nat {
    if StartsWith(line, key + "=") then 1 else 0
  }

  predicate IsNameChar(c: char) {
    'A' <= c <= 'Z' || 'a' <= c <= 'z' || IsDigit(c) || c == '_'
  }

  /** The keys the services pass: plain names, which a regular expression takes literally. */
  predicate IsKey(key: string) {
    key != "" && forall i | 0 <= i < |key| :: IsNameChar(key[i])
  }

  /** Values a quoted line can hold as they are. */
  predicate IsPlain(v: string) {
    OneLine(v) && '"' !in v
  }

  /** A `$` and behind it one of the characters that make it a replacement pattern. */
  predicate HasPattern(v: string) {
    exists i | 0 <= i < |v| - 1 :: v[i] == '$' && IsPatternChar(v[i + 1])
  }

  /** The update appends a line, finds nothing to replace, or has nothing to expand. */
  predicate Unexpanded(content: string, key: string, v: string) {
    MatchAt(content, key, true).None? || !HasPattern(v)
  }

  /** The write reaches the only assignment of the key, or may append one. */
  predicate Lands(content: string, key: string) {
    !Contains(content, key + "=") || Assignments(content, key) == 1
  }

  /** Setting the key to the value leaves a file that says so. */
  predicate Settable(content: string, key: string, value: string) {
    Lands(content, key) || (key in Parse(content) && Parse(content)[key] == value)
  }

  // ------------------------------------------------------- lines of an edit

  /** Without a pattern nothing is expanded. */
  lemma {:induction false} ExpandsToItself(t: string, before: string, matched: string, after: string)
    requires !HasPattern(t)
    ensures Expand(t, before, matched, after) == t
  {
    if t != "" {
      NoPatternInTail(t);
      ExpandsToItself(t[1..], before, matched, after);
      assert |t| >= 2 && t[0] == '$' ==> !IsPatternChar(t[1]);
      assert t == [t[0]] + t[1..];
    }
  }

  lemma NoPatternInTail(t: string)
    requires t != ""
    ensures HasPattern(t[1..]) ==> HasPattern(t)
    ensures HasPattern(t) && !(|t| >= 2 && t[0] == '$' && IsPatternChar(t[1])) ==> HasPattern(t[1..])
  {
    if i :| 0 <= i < |t[1..]| - 1 && t[1..][i] == '$' && IsPatternChar(t[1..][i + 1]) {
      assert t[i + 1] == '$' && IsPatternChar(t[i + 1 + 1]);
    }
    if i :| 0 < i < |t| - 1 && t[i] == '$' && IsPatternChar(t[i + 1]) {
      assert t[1..][i - 1] == '$' && IsPatternChar(t[1..][i - 1 + 1]);
    }
  }

  lemma {:induction false} LineEndOf(line: string, rest: string)
    requires OneLine(line) && (rest == "" || IsTerminator(rest[0]))
    ensures LineEnd(line + rest) == |line|
  {
    if line == "" {
      assert line + rest == rest;
    } else {
      LineEndOf(line[1..], rest);
      assert (line + rest)[1..] == line[1..] + rest;
    }
  }

  lemma {:induction false} LinesOfPrefix(line: string, rest: string)
    requires OneLine(line) && (rest == "" || IsTerminator(rest[0]))
    ensures Lines(line + rest) == [line] + Lines(rest)[1..]
  {
    if line == "" {
      assert line + rest == rest;
    } else {
      LinesOfPrefix(line[1..], rest);
      assert (line + rest)[1..] == line[1..] + rest;
      assert [line[0]] + line[1..] == line;
    }
  }

  lemma FirstOfLines(s: string)
    ensures Lines(s) == [s[..LineEnd(s)]] + Lines(s[LineEnd(s)..])[1..]
  {
    hide Lines, LineEnd, OneLine, IsTerminator;
    LinesOfPrefix(s[..LineEnd(s)], s[LineEnd(s)..]);
    assert s[..LineEnd(s)] + s[LineEnd(s)..] == s;
  }

  lemma OneMoreLine(c: char, ls: seq<string>, line: string)
    requires ls != []
    ensures var more := ls + [line];
      && [""] + more == [""] + ls + [line]
      && [[c] + more[0]] + more[1..] == [[c] + ls[0]] + ls[1..] + [line]
  {
  }

  lemma {:induction false} LinesOfAppend(s: string, line: string)
    requires OneLine(line)
    ensures Lines(s + ("\n" + line)) == Lines(s) + [line]
  {
    if s == "" {
      LinesOfPrefix(line, "");
      assert line + "" == line && s + ("\n" + line) == "\n" + line && ("\n" + line)[1..] == line;
    } else {
      hide OneLine, IsTerminator;
      LinesOfAppend(s[1..], line);
      OneMoreLine(s[0], Lines(s[1..]), line);
      assert (s + ("\n" + line))[1..] == s[1..] + ("\n" + line);
    }
  }

  /** The edit as a walk over the lines: the first line that assigns the key becomes `line`. */
  function Rewrite(ls: seq<string>, key: string, line: string): seq<string> {
    if ls == [] then []
    else if AssignsOnce(ls[0], key) == 1 then [line] + ls[1..]
    else [ls[0]] + Rewrite(ls[1..], key, line)
  }

  lemma KeyStartsLine(s: string, key: string)
    requires IsKey(key)
    ensures StartsWith(s, key + "=") <==> StartsWith(Lines(s)[0], key + "=")
  {
    FirstOfLines(s);
    var p, n := key + "=", LineEnd(s);
    if StartsWith(s, p) {
      assert forall i | 0 <= i < |p| :: s[i] == p[i] && !IsTerminator(p[i]);
      assert p == s[..|p|] == s[..n][..|p|];
      assert s[..n][..|p|] <= s[..n];
    }
    if StartsWith(s[..n], p) {
      assert p == s[..n][..|p|] == s[..|p|];
      assert s[..|p|] <= s;
    }
  }

  lemma EditedTail(s: string, start: nat, line: string)
    requires start < |s|
    ensures Edited(s, start + 1, line) == [s[0]] + Edited(s[1..], start, line)
  {
    assert s[start + 1..] == s[1..][start..];
  }

  /** The lines of an edit that rewrites the first assigning line, of all lines or of all but the first. */
  function RewrittenFrom(ls: seq<string>, key: string, line: string, atStart: bool): seq<string>
    requires ls != []
  {
    if atStart then Rewrite(ls, key, line) else [ls[0]] + Rewrite(ls[1..], key, line)
  }

  /** Replacing the match replaces the first assigning line. */
  lemma {:induction false} LinesOfEdit(s: string, key: string, line: string, atStart: bool)
    requires IsKey(key) && OneLine(line)
    ensures match MatchAt(s, key, atStart)
      case None => Count(if atStart then Lines(s) else Lines(s)[1..], key) == 0
      case Some(start) => Lines(Edited(s, start, line)) == RewrittenFrom(Lines(s), key, line, atStart)
  {
    KeyStartsLine(s, key);
    if atStart && StartsWith(s, key + "=") {
      LinesOfFirstEdit(s, key, line);
    } else if s != "" {
      var c, tail := s[0], s[1..];
      LinesOfEdit(tail, key, line, IsTerminator(c));
      if MatchAt(tail, key, IsTerminator(c)).Some? {
        var start := MatchAt(tail, key, IsTerminator(c)).value;
        EditedTail(s, start, line);
        RewrittenBehind(c, Lines(tail), key, line, atStart);
      } else {
        CountBehind(c, Lines(tail), key, atStart);
      }
    }
  }

  lemma LinesOfFirstEdit(s: string, key: string, line: string)
    requires IsKey(key) && OneLine(line) && StartsWith(s, key + "=")
    ensures Lines(Edited(s, 0, line)) == Rewrite(Lines(s), key, line)
  {
    KeyStartsLine(s, key);
    FirstOfLines(s);
    LinesOfPrefix(line, s[LineEnd(s)..]);
    assert s[0..] == s && Edited(s, 0, line) == line + s[LineEnd(s)..];
    assert Lines(s)[1..] == Lines(s[LineEnd(s)..])[1..];
  }

  /** The lines of a text with one more character in front. */
  function Before(c: char, ls: seq<string>): (r: seq<string>)
    requires ls != []
    ensures r != []
  {
    if IsTerminator(c) then [""] + ls else [[c] + ls[0]] + ls[1..]
  }

  lemma RewrittenBehind(c: char, ls: seq<string>, key: string, line: string, atStart: bool)
    requires ls != [] && key + "=" != ""
    requires atStart ==> !StartsWith(Before(c, ls)[0], key + "=")
    ensures RewrittenFrom(ls, key, line, IsTerminator(c)) != []
    ensures Before(c, RewrittenFrom(ls, key, line, IsTerminator(c))) == RewrittenFrom(Before(c, ls), key, line, atStart)
  {
    var more := Before(c, ls);
    if IsTerminator(c) {
      assert more[1..] == ls;
    } else {
      assert more[1..] == ls[1..];
    }
  }

  lemma CountBehind(c: char, ls: seq<string>, key: string, atStart: bool)
    requires ls != [] && Count(if IsTerminator(c) then ls else ls[1..], key) == 0
    requires atStart ==> !StartsWith(Before(c, ls)[0], key + "=")
    ensures Count(if atStart then Before(c, ls) else Before(c, ls)[1..], key) == 0
  {
    var more := Before(c, ls);
    if IsTerminator(c) {
      assert more[1..] == ls;
    } else {
      assert more[1..] == ls[1..];
    }
  }

  lemma ParseLineKeys(line: string, key: string)
    requires IsKey(key)
    ensures ParseLine(line).Keys == {key} <==> StartsWith(line, key + "=")
    ensures key in ParseLine(line) <==> StartsWith(line, key + "=")
  {
    if StartsWith(line, key + "=") {
      IndexOfPrefix(key, '=', line[|key| + 1..]);
      assert line == key + ['='] + line[|key| + 1..];
      assert line[0] == key[0];
    }
    var i := IndexOf(line, '=');
    if i < |line| && line[..i] == key {
      assert line[..i + 1] == line[..i] + [line[i]];
      assert line[..i + 1] == key + "=";
      assert StartsWith(line, line[..i + 1]);
    }
  }

  predicate EndsInQuote(t: string) {
    t != "" && t[|t| - 1] == '"'
  }

  lemma KeyEnds(key: string, rest: string)
    requires IsKey(key)
    ensures IndexOf(key + "=" + rest, '=') == |key|
  {
    assert forall i | 0 <= i < |key| :: IsNameChar(key[i]);
    assert key + "=" + rest == key + ['='] + rest;
    IndexOfPrefix(key, '=', rest);
  }

  lemma ParseLineOf(key: string, rest: string)
    requires IsKey(key)
    ensures ParseLine(key + "=" + rest) == map[key := Unquoted(rest)]
  {
    hide IndexOf, Unquoted;
    var line := key + "=" + rest;
    KeyEnds(key, rest);
    assert line[0] == key[0] && IsNameChar(key[0]);
    assert line[..|key|] == key && line[|key| + 1..] == rest;
  }

  /** A quoted value reads up to its first closing quote. */
  lemma ParseQuoted(key: string, e: string)
    requires IsKey(key) && EndsInQuote(e)
    ensures IndexOf(e, '"') < |e|
    ensures ParseLine(key + "=\"" + e) == map[key := e[..IndexOf(e, '"')]]
  {
    hide IndexOf, ParseLine;
    IndexOfAtMost(e, '"', |e| - 1);
    assert key + "=\"" + e == key + "=" + ("\"" + e) && ("\"" + e)[1..] == e;
    ParseLineOf(key, "\"" + e);
  }

  lemma ParseAssigned(key: string, v: string)
    requires IsKey(key) && '"' !in v
    ensures ParseLine(Assigned(key, v)) == map[key := v]
  {
    hide ParseLine;
    var e := v + "\"";
    ParseQuoted(key, e);
    IndexOfPrefix(v, '"', "");
    assert e == v + ['"'] + "" && e[..|v|] == v;
    assert Assigned(key, v) == key + "=\"" + e;
  }

  lemma AssignedIsOneLine(key: string, v: string)
    requires IsKey(key) && OneLine(v)
    ensures OneLine(Assigned(key, v)) && StartsWith(Assigned(key, v), key + "=")
  {
    assert Assigned(key, v)[..|key| + 1] == key + "=";
  }

  lemma {:induction false} KeysOfMerge(ls: seq<string>, key: string)
    requires IsKey(key)
    ensures key in Merge(ls) <==> Count(ls, key) > 0
  {
    if ls != [] {
      ParseLineKeys(ls[0], key);
      KeysOfMerge(ls[1..], key);
    }
  }

  /** What rewriting one line does to the meaning of the file. */
  lemma {:induction false} MergeOfRewrite(ls: seq<string>, key: string, line: string, v: string)
    requires IsKey(key) && ParseLine(line) == map[key := v]
    ensures Merge(Rewrite(ls, key, line)) == if Count(ls, key) == 1 then Merge(ls)[key := v] else Merge(ls)
  {
    hide ParseLine;
    if ls != [] {
      var rest := Merge(ls[1..]);
      ParseLineKeys(ls[0], key);
      KeysOfMerge(ls[1..], key);
      if AssignsOnce(ls[0], key) == 1 {
        Shadowed(ParseLine(ls[0]), rest, key, v);
        assert Rewrite(ls, key, line)[1..] == ls[1..];
      } else {
        MergeOfRewrite(ls[1..], key, line, v);
        UpdateBelow(ParseLine(ls[0]), rest, key, v);
        assert Rewrite(ls, key, line)[1..] == Rewrite(ls[1..], key, line);
      }
    }
  }

  lemma Shadowed(a: map<string, string>, rest: map<string, string>, key: string, v: string)
    requires a.Keys == {key}
    ensures map[key := v] + rest == if key in rest then a + rest else (a + rest)[key := v]
  {
  }

  lemma UpdateBelow(a: map<string, string>, rest: map<string, string>, key: string, v: string)
    ensures a + rest[key := v] == (a + rest)[key := v]
  {
  }

  /** Rewriting a line neither adds nor removes assignments of any key. */
  lemma {:induction false} CountOfRewrite(ls: seq<string>, key: string, v: string, k: string)
    requires IsKey(key) && OneLine(v) && IsKey(k)
    ensures Count(Rewrite(ls, key, Assigned(key, v)), k) == Count(ls, k)
  {
    if ls != [] {
      var line := Assigned(key, v);
      if AssignsOnce(ls[0], key) == 1 {
        AssignedIsOneLine(key, v);
        SameKeyLines(ls[0], line, key, k);
        assert Rewrite(ls, key, line)[1..] == ls[1..];
      } else {
        CountOfRewrite(ls[1..], key, v, k);
        assert Rewrite(ls, key, line)[1..] == Rewrite(ls[1..], key, line);
      }
    }
  }

  /** Two lines that assign one key in common assign the same keys. */
  lemma SameKeyLines(a: string, b: string, key: string, k: string)
    requires IsKey(key) && IsKey(k) && StartsWith(a, key + "=") && StartsWith(b, key + "=")
    ensures AssignsOnce(a, k) == AssignsOnce(b, k)
  {
    ParseLineKeys(a, key);
    ParseLineKeys(b, key);
    ParseLineKeys(a, k);
    ParseLineKeys(b, k);
  }

  lemma Reassociate(a: map<string, string>, b: map<string, string>, c: map<string, string>)
    ensures a + b + c == a + (b + c)
  {
  }

  lemma {:induction false} MergeOfAppend(ls: seq<string>, line: string)
    ensures Merge(ls + [line]) == Merge(ls) + ParseLine(line)
  {
    if ls == [] {
      assert (ls + [line])[1..] == [];
    } else {
      MergeOfAppend(ls[1..], line);
      assert (ls + [line])[1..] == ls[1..] + [line];
      Reassociate(ParseLine(ls[0]), Merge(ls[1..]), ParseLine(line));
    }
  }

  lemma {:induction false} CountOfAppend(ls: seq<string>, line: string, key: string)
    ensures Count(ls + [line], key) == Count(ls, key) + AssignsOnce(line, key)
  {
    if ls != [] {
      CountOfAppend(ls[1..], line, key);
      assert (ls + [line])[1..] == ls[1..] + [line];
    }
  }

  // -------------------------------------------------------------- one update

  lemma {:induction false} MatchStarts(s: string, key: string, atStart: bool)
    ensures var at := MatchAt(s, key, atStart); at.Some? ==> StartsWith(s[at.value..], key + "=")
  {
    if atStart && StartsWith(s, key + "=") {
      assert s[0..] == s;
    } else if s != "" {
      MatchStarts(s[1..], key, IsTerminator(s[0]));
      var at := MatchAt(s[1..], key, IsTerminator(s[0]));
      if at.Some? {
        assert s[at.value + 1..] == s[1..][at.value..];
      }
    }
  }

  lemma {:induction false} RewriteNothing(ls: seq<string>, key: string, line: string)
    requires Count(ls, key) == 0
    ensures Rewrite(ls, key, line) == ls
  {
    if ls != [] {
      RewriteNothing(ls[1..], key, line);
    }
  }

  lemma PatternOfAssigned(key: string, v: string)
    requires IsKey(key)
    ensures HasPattern(Assigned(key, v)) <==> HasPattern(v)
  {
    var t, n := Assigned(key, v), |key| + 2;
    assert forall i | 0 <= i < |key| :: t[i] == key[i] && IsNameChar(key[i]);
    assert forall i | 0 <= i < |v| :: t[n + i] == v[i];
    if i :| 0 <= i < |t| - 1 && t[i] == '$' && IsPatternChar(t[i + 1]) {
      assert v[i - n] == '$' && IsPatternChar(v[i - n + 1]);
    }
    if i :| 0 <= i < |v| - 1 && v[i] == '$' && IsPatternChar(v[i + 1]) {
      assert t[n + i] == '$' && IsPatternChar(t[n + i + 1]);
    }
  }

  /** The update as an edit of the text, once there is nothing to expand. */
  lemma UpdateIsEdit(content: string, key: string, v: string)
    requires IsKey(key) && Unexpanded(content, key, v)
    ensures var at := MatchAt(content, key, true);
      && (at.Some? ==> Contains(content, key + "="))
      && UpdateSpec(content, key, v) ==
        if at.Some? then Edited(content, at.value, Assigned(key, v))
        else if Contains(content, key + "=") then content
        else content + ("\n" + Assigned(key, v))
  {
    hide Expand, Assigned, LineEnd, HasPattern, Edited;
    var at := MatchAt(content, key, true);
    MatchStarts(content, key, true);
    if at.Some? {
      var end := at.value + LineEnd(content[at.value..]);
      PatternOfAssigned(key, v);
      ExpandsToItself(Assigned(key, v), content[..at.value], content[at.value..end], content[end..]);
    }
  }

  /** The effect of an update on the lines of the file. */
  lemma LinesOfUpdate(content: string, key: string, v: string)
    requires IsKey(key) && IsPlain(v) && Unexpanded(content, key, v)
    ensures Assignments(content, key) > 0 ==> Contains(content, key + "=")
    ensures Lines(UpdateSpec(content, key, v)) ==
      if Contains(content, key + "=") then Rewrite(Lines(content), key, Assigned(key, v))
      else Lines(content) + [Assigned(key, v)]
  {
    var line := Assigned(key, v);
    UpdateIsEdit(content, key, v);
    AssignedIsOneLine(key, v);
    LinesOfEdit(content, key, line, true);
    if MatchAt(content, key, true).None? {
      RewriteNothing(Lines(content), key, line);
      LinesOfAppend(content, line);
    }
  }

  lemma MeaningOfAppend(ls: seq<string>, key: string, v: string)
    requires IsKey(key) && IsPlain(v)
    ensures Merge(ls + [Assigned(key, v)]) == Merge(ls)[key := v]
  {
    MergeOfAppend(ls, Assigned(key, v));
    ParseAssigned(key, v);
    OverlayOne(Merge(ls), key, v);
  }

  lemma OverlayOne(m: map<string, string>, key: string, v: string)
    ensures m + map[key := v] == m[key := v]
  {
  }

  lemma MeaningOfUpdate(content: string, key: string, v: string)
    requires IsKey(key) && IsPlain(v) && Unexpanded(content, key, v)
    ensures Parse(UpdateSpec(content, key, v)) ==
      if Lands(content, key) then Parse(content)[key := v] else Parse(content)
  {
    LinesOfUpdate(content, key, v);
    if Contains(content, key + "=") {
      ParseAssigned(key, v);
      MergeOfRewrite(Lines(content), key, Assigned(key, v), v);
    } else {
      MeaningOfAppend(Lines(content), key, v);
    }
  }

  /**
   Reading back: after the write the file means what it meant before with the key
   set to the value, exactly when the key was settable: its only assignment is
   rewritten, or appended, or the value was there already.  Otherwise the write
   is lost: `KEY=` stands in the middle of a line only, or a later line wins.
   */
  lemma WriteReadsBackExactlyWhen(content: string, key: string, v: string)
    requires IsKey(key) && IsPlain(v) && Unexpanded(content, key, v)
    ensures Parse(UpdateSpec(content, key, v)) == Parse(content)[key := v] <==> Settable(content, key, v)
    ensures !Settable(content, key, v) ==> Parse(UpdateSpec(content, key, v)) == Parse(content)
  {
    MeaningOfUpdate(content, key, v);
    SameUpdate(Parse(content), key, v);
  }

  lemma SameUpdate(m: map<string, string>, key: string, v: string)
    ensures m == m[key := v] <==> key in m && m[key] == v
  {
    assert m[key := v][key] == v;
  }

  // ------------------------------------------------------------ second write

  lemma StartsWithin(s: string, key: string, x: string)
    requires IsKey(key)
    ensures StartsWith(s + ("\n" + x), key + "=") <==> StartsWith(s, key + "=")
  {
    var p, t := key + "=", s + ("\n" + x);
    if StartsWith(t, p) {
      assert forall i | 0 <= i < |p| :: t[i] == p[i] && !IsTerminator(p[i]);
      assert IsTerminator(t[|s|]);
      assert p == t[..|p|] == s[..|p|];
      assert s[..|p|] <= s;
    }
    if StartsWith(s, p) {
      assert p == s[..|p|] == t[..|p|];
      assert t[..|p|] <= t;
    }
  }

  lemma {:induction false} MatchAppended(s: string, key: string, line: string, atStart: bool)
    requires IsKey(key) && StartsWith(line, key + "=") && MatchAt(s, key, atStart).None?
    ensures MatchAt(s + ("\n" + line), key, atStart) == Some(|s| + 1)
  {
    hide IsKey, StartsWith;
    var t := s + ("\n" + line);
    StartsWithin(s, key, line);
    if s == "" {
      assert t[0] == '\n' && t[1..] == line;
    } else {
      MatchAppended(s[1..], key, line, IsTerminator(s[0]));
      assert t[1..] == s[1..] + ("\n" + line);
    }
  }

  /** The match of an edited text is where it was. */
  lemma {:induction false} MatchEdited(s: string, key: string, line: string, atStart: bool)
    requires IsKey(key) && OneLine(line) && StartsWith(line, key + "=") && MatchAt(s, key, atStart).Some?
    ensures var at := MatchAt(s, key, atStart).value; MatchAt(Edited(s, at, line), key, atStart) == Some(at)
  {
    hide LineEnd, Rewrite;
    var at := MatchAt(s, key, atStart).value;
    var t, p := Edited(s, at, line), key + "=";
    if atStart && StartsWith(s, p) {
      assert t == line + s[LineEnd(s[0..])..];
      assert t[..|p|] == line[..|p|] == p;
      assert t[..|p|] <= t;
    } else {
      var c, tail := s[0], s[1..];
      MatchEdited(tail, key, line, IsTerminator(c));
      EditedTail(s, at - 1, line);
      LinesOfEdit(tail, key, line, IsTerminator(c));
      KeyStartsLine(s, key);
      KeyStartsLine(t, key);
      assert t[1..] == Edited(tail, at - 1, line);
    }
  }

  lemma EditTwice(s: string, at: nat, a: string, b: string)
    requires at <= |s| && OneLine(a)
    ensures Edited(Edited(s, at, a), at, b) == Edited(s, at, b)
  {
    var rest := s[at + LineEnd(s[at..])..];
    var t := Edited(s, at, a);
    assert t[at..] == a + rest && t[..at] == s[..at];
    LineEndOf(a, rest);
    assert t[at + |a|..] == rest;
  }

  /** The second write of a key wins: it leaves the very text it would have left alone. */
  lemma SecondWriteWins(content: string, key: string, a: string, b: string)
    requires IsKey(key) && OneLine(a) && Unexpanded(content, key, a) && !HasPattern(b)
    ensures UpdateSpec(UpdateSpec(content, key, a), key, b) == UpdateSpec(content, key, b)
  {
    var at, first, second := MatchAt(content, key, true), Assigned(key, a), Assigned(key, b);
    var once := UpdateSpec(content, key, a);
    AssignedIsOneLine(key, a);
    UpdateIsEdit(content, key, a);
    UpdateIsEdit(content, key, b);
    UpdateIsEdit(once, key, b);
    if at.Some? {
      MatchEdited(content, key, first, true);
      EditTwice(content, at.value, first, second);
    } else if !Contains(content, key + "=") {
      MatchAppended(content, key, first, true);
      EditAppended(content, first, second);
    }
  }

  lemma EditAppended(s: string, a: string, b: string)
    requires OneLine(a)
    ensures Edited(s + ("\n" + a), |s| + 1, b) == s + ("\n" + b)
  {
    var t := s + ("\n" + a);
    assert t[|s| + 1..] == a + "";
    LineEndOf(a, "");
    assert t[..|s| + 1] == s + "\n";
  }

  // ----------------------------------------------------- several keys at once

  predicate InSome(ls: seq<string>, p: string) {
    exists line | line in ls :: Contains(line, p)
  }

  lemma ContainsStep(s: string, p: string)
    requires s != ""
    ensures Contains(s, p) <==> StartsWith(s, p) || Contains(s[1..], p)
  {
    if StartsWith(s, p) {
      assert s[0..] == s;
    }
    if i :| 0 < i <= |s| && StartsWith(s[i..], p) {
      assert s[i..] == s[1..][i - 1..];
    }
    if i :| 0 <= i <= |s[1..]| && StartsWith(s[1..][i..], p) {
      assert s[i + 1..] == s[1..][i..];
    }
  }

  /** `KEY=` lies within one line, so the text has it exactly when some line has it. */
  lemma {:induction false} ContainsByLines(s: string, key: string)
    requires IsKey(key)
    ensures Contains(s, key + "=") <==> InSome(Lines(s), key + "=")
  {
    var p := key + "=";
    if s == "" {
      assert !Contains("", p);
      assert forall line | line in Lines(s) :: line == "";
    } else {
      var ls := Lines(s[1..]);
      ContainsByLines(s[1..], key);
      ContainsStep(s, p);
      KeyStartsLine(s, key);
      if IsTerminator(s[0]) {
        assert !Contains("", p);
        assert forall line :: line in Lines(s) <==> line == "" || line in ls;
      } else {
        var head := [s[0]] + ls[0];
        ContainsStep(head, p);
        assert head[1..] == ls[0] && ls == [ls[0]] + ls[1..];
        assert forall line :: line in Lines(s) <==> line == head || line in ls[1..];
        assert forall line :: line in ls <==> line == ls[0] || line in ls[1..];
      }
    }
  }

  lemma {:induction false} RewrittenLines(ls: seq<string>, key: string, line: string)
    ensures forall l | l in Rewrite(ls, key, line) :: l in ls || l == line
  {
    if ls != [] {
      RewrittenLines(ls[1..], key, line);
    }
  }

  lemma OnlyEquals(key: string, v: string, j: nat)
    requires IsKey(key) && '=' !in v && j < |Assigned(key, v)| && Assigned(key, v)[j] == '='
    ensures j == |key|
  {
    forall k | |key| + 2 <= k < |Assigned(key, v)| - 1 ensures Assigned(key, v)[k] in v {
      assert Assigned(key, v)[k] == v[k - |key| - 2];
    }
  }

  lemma AssignedMentions(key: string, v: string, other: string)
    requires IsKey(key) && IsKey(other) && '=' !in v
    requires Contains(Assigned(key, v), other + "=")
    ensures EndsWith(key, other)
  {
    hide IsKey;
    var line, p := Assigned(key, v), other + "=";
    var i :| 0 <= i <= |line| && StartsWith(line[i..], p);
    var j := i + |other|;
    assert line[j] == p[|other|] == '=';
    OnlyEquals(key, v, j);
    assert key[i..] == line[i..][..|other|] == p[..|other|] == other;
  }

  /** Writing one key keeps every other key settable, whose name is not an end of the written one. */
  lemma LandsIsKept(content: string, key: string, v: string, other: string)
    requires IsKey(key) && IsPlain(v) && '=' !in v && Unexpanded(content, key, v)
    requires IsKey(other) && !EndsWith(key, other) && Lands(content, other)
    ensures Lands(UpdateSpec(content, key, v), other)
  {
    var ls, line, after := Lines(content), Assigned(key, v), UpdateSpec(content, key, v);
    LinesOfUpdate(content, key, v);
    ContainsByLines(content, other);
    ContainsByLines(after, other);
    if Contains(line, other + "=") {
      AssignedMentions(key, v, other);
    }
    RewrittenLines(ls, key, line);
    if Contains(content, key + "=") {
      CountOfRewrite(ls, key, v, other);
    } else {
      NotAssigned(key, v, other);
      CountOfAppend(ls, line, other);
    }
  }

  lemma NotAssigned(key: string, v: string, other: string)
    requires !Contains(Assigned(key, v), other + "=")
    ensures AssignsOnce(Assigned(key, v), other) == 0
  {
    assert Assigned(key, v)[0..] == Assigned(key, v);
  }

  /** Every setting has a key of its own and a value that a line can hold and `replace` leaves alone. */
  predicate Writable(updates: Updates) {
    && (forall u | u in updates :: IsKey(u.0) && (u.1.Some? ==> IsPlain(u.1.value) && !HasPattern(u.1.value)))
    && (forall i, j | 0 <= i < j < |updates| :: updates[i].0 != updates[j].0)
  }

  /** Each setting is settable in the text it meets. */
  predicate SettableRun(content: string, updates: Updates)
    decreases |updates|
  {
    if updates == [] then true
    else
      var (key, value) := updates[0];
      if value.None? then SettableRun(content, updates[1..])
      else Settable(content, key, value.value) && SettableRun(UpdateSpec(content, key, value.value), updates[1..])
  }

  lemma RestIsWritable(updates: Updates)
    requires Writable(updates) && updates != []
    ensures Writable(updates[1..]) && updates[0] in updates
    ensures forall u | u in updates[1..] :: u in updates && u.0 != updates[0].0
  {
    var rest := updates[1..];
    assert forall i | 0 <= i < |rest| :: rest[i] == updates[i + 1] && updates[i + 1].0 != updates[0].0;
  }

  /** A key that no setting names keeps its value in the file. */
  lemma {:induction false} OtherKeysKeep(content: string, updates: Updates, key: string)
    requires Writable(updates) && forall u | u in updates :: u.0 != key
    ensures var before, after := Parse(content), Parse(UpdateAllSpec(content, updates));
      (key in after <==> key in before) && (key in after ==> after[key] == before[key])
    decreases |updates|
  {
    hide Parse, UpdateSpec, Lands;
    if updates != [] {
      var (k, value) := updates[0];
      RestIsWritable(updates);
      if value.None? {
        OtherKeysKeep(content, updates[1..], key);
      } else {
        MeaningOfUpdate(content, k, value.value);
        OtherKeysKeep(UpdateSpec(content, k, value.value), updates[1..], key);
      }
    }
  }

  /**
   The file and the environment of the process go through one and the same
   change, exactly when each setting is settable in the text it meets.
   */
  lemma {:induction false} FileFollowsEnvironmentExactlyWhen(content: string, updates: Updates)
    requires Writable(updates)
    ensures Parse(UpdateAllSpec(content, updates)) == EnvAfter(Parse(content), updates)
        <==> SettableRun(content, updates)
    decreases |updates|
  {
    hide Parse, UpdateSpec, Lands;
    if updates != [] {
      var (key, value) := updates[0];
      var rest := updates[1..];
      RestIsWritable(updates);
      if value.None? {
        FileFollowsEnvironmentExactlyWhen(content, rest);
      } else {
        var v := value.value;
        var after := UpdateSpec(content, key, v);
        WriteReadsBackExactlyWhen(content, key, v);
        if Settable(content, key, v) {
          FileFollowsEnvironmentExactlyWhen(after, rest);
        } else {
          OtherKeysKeep(after, rest, key);
          EnvironmentKeeps(Parse(content)[key := v], rest, key);
        }
      }
    }
  }

  // ------------------------------------------------------- independent keys

  /** No key ends in another, so the text of one line mentions no other key. */
  predicate Independent(updates: Updates) {
    && Writable(updates)
    && (forall u | u in updates && u.1.Some? :: '=' !in u.1.value)
    && (forall i, j | 0 <= i < |updates| && 0 <= j < |updates| && i != j :: !EndsWith(updates[i].0, updates[j].0))
  }

  predicate AllSettable(content: string, updates: Updates) {
    forall u | u in updates && u.1.Some? :: Settable(content, u.0, u.1.value)
  }

  /** One write of independent settings leaves the others settable. */
  lemma RestStaysSettable(content: string, updates: Updates)
    requires Independent(updates) && AllSettable(content, updates) && updates != []
    ensures Independent(updates[1..])
    ensures AllSettable(if updates[0].1.None? then content
      else UpdateSpec(content, updates[0].0, updates[0].1.value), updates[1..])
  {
    hide Parse, UpdateSpec, Lands;
    var (key, value) := updates[0];
    var rest := updates[1..];
    RestIsWritable(updates);
    assert forall j | 0 <= j < |rest| :: rest[j] == updates[j + 1];
    if value.Some? {
      forall u | u in rest && u.1.Some? ensures Settable(UpdateSpec(content, key, value.value), u.0, u.1.value) {
        var j :| 0 <= j < |rest| && rest[j] == u;
        assert !EndsWith(updates[0].0, updates[j + 1].0);
        WriteReadsBackExactlyWhen(content, key, value.value);
        if Lands(content, u.0) {
          LandsIsKept(content, key, value.value, u.0);
        }
      }
    }
  }

  lemma {:induction false} IndependentRunIsSettable(content: string, updates: Updates)
    requires Independent(updates) && AllSettable(content, updates)
    ensures SettableRun(content, updates)
    decreases |updates|
  {
    hide Settable, Independent;
    if updates != [] {
      RestStaysSettable(content, updates);
      assert updates[0] in updates;
      IndependentRunIsSettable(if updates[0].1.None? then content
        else UpdateSpec(content, updates[0].0, updates[0].1.value), updates[1..]);
    }
  }

  lemma {:induction false} EnvironmentKeeps(env: map<string, string>, updates: Updates, key: string)
    requires forall u | u in updates && u.0 == key :: u.1.None?
    ensures key in EnvAfter(env, updates) <==> key in env
    ensures key in env ==> EnvAfter(env, updates)[key] == env[key]
    decreases |updates|
  {
    if updates != [] {
      var (k, value) := updates[0];
      assert updates[0] in updates && forall u | u in updates[1..] :: u in updates;
      EnvironmentKeeps(if value.None? then env else env[k := value.value], updates[1..], key);
    }
  }

  lemma {:induction false} EnvironmentHolds(env: map<string, string>, updates: Updates, i: nat)
    requires Writable(updates) && i < |updates| && updates[i].1.Some?
    ensures updates[i].0 in EnvAfter(env, updates) && EnvAfter(env, updates)[updates[i].0] == updates[i].1.value
    decreases |updates|
  {
    var (k, value) := updates[0];
    RestIsWritable(updates);
    var next := if value.None? then env else env[k := value.value];
    if i == 0 {
      EnvironmentKeeps(next, updates[1..], k);
    } else {
      EnvironmentHolds(next, updates[1..], i - 1);
    }
  }

  /**
   A whole configuration request whose settings are settable is one simultaneous
   update of the file's meaning: every setting given reads back, every other key
   keeps its value.
   */
  lemma UpdateIsSimultaneous(content: string, updates: Updates)
    requires Writable(updates) && SettableRun(content, updates)
    ensures var after := Parse(UpdateAllSpec(content, updates));
      && (forall i | 0 <= i < |updates| && updates[i].1.Some? ::
        updates[i].0 in after && after[updates[i].0] == updates[i].1.value)
      && (forall key | (forall u | u in updates && u.0 == key :: u.1.None?) ::
        (key in after <==> key in Parse(content)) && (key in after ==> after[key] == Parse(content)[key]))
  {
    FileFollowsEnvironmentExactlyWhen(content, updates);
    var after := EnvAfter(Parse(content), updates);
    forall i | 0 <= i < |updates| && updates[i].1.Some?
      ensures updates[i].0 in after && after[updates[i].0] == updates[i].1.value
    {
      EnvironmentHolds(Parse(content), updates, i);
    }
    forall key | forall u | u in updates && u.0 == key :: u.1.None?
      ensures (key in after <==> key in Parse(content)) && (key in after ==> after[key] == Parse(content)[key])
    {
      EnvironmentKeeps(Parse(content), updates, key);
    }
  }

  // ------------------------------------------------------ the backup settings

  /** The twelve settings, in the order the handler writes them. */
  function BackupKey(i: nat): string
    requires i < 12
  {
    match i
    case 0 => "BACKUP_PROVIDER"
    case 1 => "DB_BACKUP_SCHEDULE"
    case 2 => "BACKUP_RETENTION"
    case 3 => "BACKUP_S3_ENDPOINT"
    case 4 => "BACKUP_S3_REGION"
    case 5 => "BACKUP_S3_BUCKET"
    case 6 => "BACKUP_S3_ACCESS_KEY"
    case 7 => "BACKUP_S3_SECRET_KEY"
    case 8 => "BACKUP_SFTP_HOST"
    case 9 => "BACKUP_SFTP_PORT"
    case 10 => "BACKUP_SFTP_USER"
    case 11 => "BACKUP_SFTP_PASS"
  }

  function BackupUpdates(config: seq<Option<string>>): (u: Updates)
    requires |config| == 12
    ensures |u| == 12 && forall i | 0 <= i < 12 :: u[i] == (BackupKey(i), config[i])
  {
    seq(12, i requires 0 <= i < 12 => (BackupKey(i), config[i]))
  }

  /** The last five characters of each key. */
  function BackupTail(i: nat): string
    requires i < 12
  {
    match i
    case 0 => "VIDER"
    case 1 => "EDULE"
    case 2 => "NTION"
    case 3 => "POINT"
    case 4 => "EGION"
    case 5 => "UCKET"
    case 6 => "S_KEY"
    case 7 => "T_KEY"
    case 8 => "_HOST"
    case 9 => "_PORT"
    case 10 => "_USER"
    case 11 => "_PASS"
  }

  lemma ScheduleKeysAreKeys(i: nat)
    requires i < 3
    ensures IsKey(BackupKey(i))
  {
  }

  lemma PlaceKeysAreKeys(i: nat)
    requires 3 <= i < 6
    ensures IsKey(BackupKey(i))
  {
  }

  lemma FirstKeysAreKeys(i: nat)
    requires i < 6
    ensures IsKey(BackupKey(i))
  {
    hide BackupKey, IsKey;
    if i < 3 {
      ScheduleKeysAreKeys(i);
    } else {
      PlaceKeysAreKeys(i);
    }
  }

  lemma LastKeysAreKeys(i: nat)
    requires 6 <= i < 12
    ensures IsKey(BackupKey(i))
  {
  }

  lemma FirstKeysEnd(i: nat)
    requires i < 6
    ensures EndsWith(BackupKey(i), BackupTail(i)) && |BackupTail(i)| == 5
  {
  }

  lemma LastKeysEnd(i: nat)
    requires 6 <= i < 12
    ensures EndsWith(BackupKey(i), BackupTail(i)) && |BackupTail(i)| == 5
  {
  }

  lemma BackupKeyEnds(i: nat)
    requires i < 12
    ensures EndsWith(BackupKey(i), BackupTail(i)) && |BackupTail(i)| == 5
  {
    hide BackupKey, BackupTail;
    if i < 6 {
      FirstKeysEnd(i);
    } else {
      LastKeysEnd(i);
    }
  }

  lemma TailsDiffer(i: nat, j: nat)
    requires i < 12 && j < 12 && BackupTail(i) == BackupTail(j)
    ensures i == j
  {
    var a, b := BackupTail(i), BackupTail(j);
    assert a[0] == b[0] && a[1] == b[1];
  }

  lemma EndsAgree(a: string, b: string, x: string, y: string)
    requires EndsWith(a, b) && EndsWith(a, x) && EndsWith(b, y) && |x| == |y|
    ensures x == y
  {
    assert a[|a| - |x|..] == a[|a| - |b|..][|b| - |y|..];
  }

  /** No backup key ends in another, so the twelve writes do not disturb each other. */
  lemma BackupKeysAreIndependent(config: seq<Option<string>>)
    requires |config| == 12
    requires forall c | c in config && c.Some? :: IsPlain(c.value) && !HasPattern(c.value) && '=' !in c.value
    ensures Independent(BackupUpdates(config))
  {
    hide HasPattern;
    var updates := BackupUpdates(config);
    forall u | u in updates ensures IsKey(u.0) && u.1 in config {
      var i :| 0 <= i < 12 && u == updates[i];
      if i < 6 {
        FirstKeysAreKeys(i);
      } else {
        LastKeysAreKeys(i);
      }
    }
    forall i, j | 0 <= i < 12 && 0 <= j < 12 && i != j
      ensures !EndsWith(updates[i].0, updates[j].0) && updates[i].0 != updates[j].0
    {
      KeysAreIndependent(i, j);
      assert EndsWith(updates[i].0, updates[i].0);
    }
  }

  /** The variable each backup setting is for. */
  const BACKUP_KEYS := [
    "BACKUP_PROVIDER", "DB_BACKUP_SCHEDULE", "BACKUP_RETENTION", "BACKUP_S3_ENDPOINT", "BACKUP_S3_REGION",
    "BACKUP_S3_BUCKET", "BACKUP_S3_ACCESS_KEY", "BACKUP_S3_SECRET_KEY", "BACKUP_SFTP_HOST", "BACKUP_SFTP_PORT",
    "BACKUP_SFTP_USER", "BACKUP_SFTP_PASS"]

  /**
   A backup request reads back setting by setting, each under its own variable, and
   leaves every other variable alone, when each is settable in the file before.
   */
  lemma BackupSettingsReadBack(content: string, config: seq<Option<string>>)
    requires |config| == 12
    requires forall c | c in config && c.Some? :: IsPlain(c.value) && !HasPattern(c.value) && '=' !in c.value
    requires forall i | 0 <= i < 12 && config[i].Some? :: Settable(content, BACKUP_KEYS[i], config[i].value)
    ensures var before, after := Parse(content), Parse(UpdateAllSpec(content, BackupUpdates(config)));
      && (forall i | 0 <= i < 12 && config[i].Some? ::
            BACKUP_KEYS[i] in after && after[BACKUP_KEYS[i]] == config[i].value)
      && (forall key | (forall i | 0 <= i < 12 && config[i].Some? :: BACKUP_KEYS[i] != key) ::
            (key in after <==> key in before) && (key in after ==> after[key] == before[key]))
  {
    hide Parse, UpdateAllSpec, Settable, HasPattern, BackupKey, Independent;
    var updates := BackupUpdates(config);
    BackupKeysAreIndependent(config);
    IndependentIsWritable(updates);
    forall i | 0 <= i < 12 ensures BackupKey(i) == BACKUP_KEYS[i] {
      KeyNames(i);
    }
    IndependentRunIsSettable(content, updates);
    UpdateIsSimultaneous(content, updates);
    forall i | 0 <= i < 12 && config[i].Some? ensures updates[i].0 == BACKUP_KEYS[i] && updates[i].1 == config[i] {
    }
  }

  lemma IndependentIsWritable(updates: Updates)
    requires Independent(updates)
    ensures Writable(updates)
  {
  }

  lemma KeyNames(i: nat)
    requires i < 12
    ensures BackupKey(i) == BACKUP_KEYS[i]
  {
  }

  lemma KeysAreIndependent(i: nat, j: nat)
    requires i < 12 && j < 12 && i != j
    ensures !EndsWith(BackupKey(i), BackupKey(j))
  {
    BackupKeyEnds(i);
    BackupKeyEnds(j);
    if EndsWith(BackupKey(i), BackupKey(j)) {
      EndsAgree(BackupKey(i), BackupKey(j), BackupTail(i), BackupTail(j));
      TailsDiffer(i, j);
    }
  }

  // -------------------------------------------------------------- lost writes

  lemma {:induction false} NoMatchInLine(s: string, key: string)
    requires OneLine(s)
    ensures MatchAt(s, key, false).None?
  {
    if s != "" {
      NoMatchInLine(s[1..], key);
    }
  }

  /** A comment that mentions the key is enough to lose every write of it. */
  lemma CommentLosesWrite(key: string, text: string, v: string)
    requires IsKey(key) && OneLine(text) && IsPlain(v)
    ensures var content := "#" + key + "=" + text; Parse(UpdateSpec(content, key, v)) == Parse(content) == map[]
  {
    var content := "#" + key + "=" + text;
    LinesOfPrefix(content, "");
    assert content + "" == content;
    assert content[1..][..|key| + 1] == key + "=";
    assert StartsWith(content[1..], key + "=");
    KeysOfMerge(Lines(content), key);
    assert content[0] == '#';
    NoMatchInLine(content[1..], key);
    WriteReadsBackExactlyWhen(content, key, v);
  }

  // -------------------------------------------------------- expanded patterns

  /** What stands before a match ends a line, and what stands behind it begins with a terminator. */
  predicate Around(before: string, after: string) {
    (before == "" || IsTerminator(before[|before| - 1])) && (after == "" || IsTerminator(after[0]))
  }

  predicate AllPatternChars(q: string) {
    forall i | 0 <= i < |q| :: q[i] == '$' || q[i] == '`' || q[i] == '\''
  }

  lemma OneLineParts(a: string, b: string)
    ensures OneLine(a + b) <==> OneLine(a) && OneLine(b)
  {
    assert forall i | 0 <= i < |a| :: (a + b)[i] == a[i];
    assert forall i | 0 <= i < |b| :: (a + b)[|a| + i] == b[i];
  }

  lemma PrefixTail(q: string, b: string, c: char, rest: string)
    requires q != "" && q + b <= [c] + rest
    ensures q[0] == c && q[1..] + b <= rest
  {
    assert (q + b)[0] == ([c] + rest)[0];
    assert (q + b)[1..] == q[1..] + b;
    assert ([c] + rest)[1..] == rest;
  }

  lemma Requeue(q: string, x: string, b: string, d: string)
    requires q + (x + b) <= d
    ensures q + x + b <= d
  {
    assert q + x + b == q + (x + b);
  }

  /**
   The expansion cannot lag behind its own text: the characters it owes (`q`) are
   pattern characters, each one written is owed again, and the closing quote is none.
   */
  lemma {:induction false} ExpansionNeverCatchesUp(q: string, b: string, before: string, matched: string, after: string)
    requires q != "" && AllPatternChars(q) && EndsInQuote(b)
    requires Around(before, after) && matched != "" && IsNameChar(matched[0])
    requires OneLine(Expand(b, before, matched, after))
    ensures !(q + b <= Expand(b, before, matched, after))
    decreases |b|
  {
    var d := Expand(b, before, matched, after);
    if q + b <= d {
      if |b| >= 2 && b[0] == '$' && IsPatternChar(b[1]) {
        PatternNeverCatchesUp(q, b, before, matched, after);
      } else {
        var rest := Expand(b[1..], before, matched, after);
        assert d == [b[0]] + rest && b == [b[0]] + b[1..];
        PrefixTail(q, b, b[0], rest);
        Requeue(q[1..], [b[0]], b[1..], rest);
        OneLineParts([b[0]], rest);
        ExpansionNeverCatchesUp(q[1..] + [b[0]], b[1..], before, matched, after);
      }
    }
  }

  lemma PatternNeverCatchesUp(q: string, b: string, before: string, matched: string, after: string)
    requires AllPatternChars(q) && EndsInQuote(b)
    requires Around(before, after) && matched != "" && IsNameChar(matched[0])
    requires OneLine(Expand(b, before, matched, after))
    requires |b| >= 2 && b[0] == '$' && IsPatternChar(b[1])
    ensures !(q + b <= Expand(b, before, matched, after))
    decreases |b|, 0
  {
    hide OneLine, IsNameChar, PatternText, AllPatternChars, Around, EndsInQuote, IsPatternChar;
    var rest := Expand(b[2..], before, matched, after);
    var text := PatternText(b[1], before, matched, after);
    var pair := ['$', b[1]];
    assert b == pair + b[2..];
    QuoteBehind(b);
    OneLineParts(text, rest);
    if q + b <= text + rest {
      Requeue(q, pair, b[2..], text + rest);
      FirstOwed(q, b[1], b[2..], before, matched, after, rest);
      ExpansionNeverCatchesUp(StillOwed(q, b[1]), b[2..], before, matched, after);
    }
  }

  lemma QuoteBehind(b: string)
    requires EndsInQuote(b) && |b| >= 2 && IsPatternChar(b[1])
    ensures |b| > 2 && EndsInQuote(b[2..])
  {
  }

  /** What is owed once a pattern has been written: its two characters more, and a `$` less if it wrote one. */
  function StillOwed(q: string, c: char): string {
    var owed := q + ['$', c];
    if c == '$' then owed[1..] else owed
  }

  /** What one pattern writes of the owed text: a `$` at most. */
  lemma FirstOwed(q: string, c: char, b: string, before: string, matched: string, after: string, rest: string)
    requires AllPatternChars(q) && IsPatternChar(c)
    requires q + ['$', c] + b <= PatternText(c, before, matched, after) + rest
    requires Around(before, after) && matched != "" && IsNameChar(matched[0])
    requires OneLine(PatternText(c, before, matched, after))
    ensures var left := StillOwed(q, c); left != "" && AllPatternChars(left) && left + b <= rest
  {
    var owed := q + ['$', c];
    assert owed[0] == if q == "" then '$' else q[0];
    if c == '$' {
      PrefixTail(owed, b, '$', rest);
    } else if c == '&' {
      assert matched + rest == [matched[0]] + (matched[1..] + rest);
      PrefixTail(owed, b, matched[0], matched[1..] + rest);
    } else {
      assert "" + rest == rest;
    }
  }

  /** A text with a pattern is no beginning of its own expansion, as long as that stays on one line. */
  lemma {:induction false} PatternShows(t: string, before: string, matched: string, after: string)
    requires EndsInQuote(t) && HasPattern(t)
    requires Around(before, after) && matched != "" && IsNameChar(matched[0])
    requires OneLine(Expand(t, before, matched, after))
    ensures !(t <= Expand(t, before, matched, after))
  {
    hide HasPattern, OneLine, Around, IsNameChar, PatternText, IsPatternChar;
    var d := Expand(t, before, matched, after);
    if |t| >= 2 && t[0] == '$' && IsPatternChar(t[1]) {
      PatternNeverCatchesUp("", t, before, matched, after);
      assert "" + t == t;
    } else {
      var rest := Expand(t[1..], before, matched, after);
      assert d == [t[0]] + rest && t == [t[0]] + t[1..];
      NoPatternInTail(t);
      OneLineParts([t[0]], rest);
      PatternShows(t[1..], before, matched, after);
      assert d[1..] == rest;
    }
  }

  lemma {:induction false} ExpandPrefix(prefix: string, t: string, before: string, matched: string, after: string)
    requires forall i | 0 <= i < |prefix| :: prefix[i] != '$'
    ensures Expand(prefix + t, before, matched, after) == prefix + Expand(t, before, matched, after)
  {
    hide PatternText, IsPatternChar;
    if prefix == "" {
      assert prefix + t == t;
    } else {
      ExpandPrefix(prefix[1..], t, before, matched, after);
      assert (prefix + t)[1..] == prefix[1..] + t;
    }
  }

  lemma {:induction false} ExpansionEndsInQuote(t: string, before: string, matched: string, after: string)
    requires EndsInQuote(t)
    ensures EndsInQuote(Expand(t, before, matched, after))
    decreases |t|
  {
    if |t| >= 2 && t[0] == '$' && IsPatternChar(t[1]) {
      assert |t| > 2;
      ExpansionEndsInQuote(t[2..], before, matched, after);
    } else if |t| > 1 {
      ExpansionEndsInQuote(t[1..], before, matched, after);
    }
  }

  lemma {:induction false} MatchAtLineStart(s: string, key: string, atStart: bool)
    ensures var at := MatchAt(s, key, atStart);
      at.Some? ==> if at.value == 0 then atStart else IsTerminator(s[at.value - 1])
  {
    if !(atStart && StartsWith(s, key + "=")) && s != "" {
      MatchAtLineStart(s[1..], key, IsTerminator(s[0]));
      var at := MatchAt(s[1..], key, IsTerminator(s[0]));
      assert at.Some? && at.value > 0 ==> s[at.value] == s[1..][at.value - 1];
    }
  }

  /** A match is a line that begins with the key. */
  lemma MatchIsLine(content: string, key: string)
    requires IsKey(key) && MatchAt(content, key, true).Some?
    ensures var start := MatchAt(content, key, true).value;
      var end := start + LineEnd(content[start..]);
      && Around(content[..start], content[end..])
      && start < end && IsNameChar(content[start..end][0])
  {
    var start := MatchAt(content, key, true).value;
    MatchStarts(content, key, true);
    MatchAtLineStart(content, key, true);
    var line := content[start..];
    assert line[0] == (key + "=")[0] == key[0];
    assert IsNameChar(key[0]) && !IsTerminator(line[0]);
    assert LineEnd(line) > 0;
    assert content[start + LineEnd(line)..] == line[LineEnd(line)..];
    assert start > 0 ==> content[..start][start - 1] == content[start - 1];
  }

  lemma SameMiddle(a: string, x: string, y: string, b: string)
    requires a + x + b == a + y + b
    ensures x == y
  {
    assert |x| == |y|;
    assert (a + x + b)[|a|..|a| + |x|] == x && (a + y + b)[|a|..|a| + |y|] == y;
  }

  /** What an append leaves: the file, a line break and the value in double quotes behind its key. */
  lemma AppendedLine(content: string, key: string, v: string)
    requires forall i | 0 <= i <= |content| :: !(key + "=" <= content[i..])
    ensures UpdateSpec(content, key, v) == content + ("\n" + (key + "=\"" + v + "\""))
  {
  }

  /**
   An update of a matched key writes the line it means to write - the value in double
   quotes behind its key - exactly when the value holds no pattern.
   */
  lemma LineIsWrittenExactlyWhen(content: string, key: string, v: string)
    requires IsKey(key) && OneLine(v) && MatchAt(content, key, true).Some?
    ensures var start := MatchAt(content, key, true).value;
      UpdateSpec(content, key, v) == Edited(content, start, key + "=\"" + v + "\"") <==> !HasPattern(v)
  {
    hide Expand, HasPattern, LineEnd, OneLine;
    var start := MatchAt(content, key, true).value;
    var line := Assigned(key, v);
    if !HasPattern(v) {
      UpdateIsEdit(content, key, v);
    } else if UpdateSpec(content, key, v) == Edited(content, start, line) {
      var end := start + LineEnd(content[start..]);
      MatchStarts(content, key, true);
      SameMiddle(content[..start], Replacement(content, start, key, v), line, content[end..]);
      MatchIsLine(content, key);
      PatternOfAssigned(key, v);
      AssignedIsOneLine(key, v);
      PatternShows(line, content[..start], content[start..end], content[end..]);
    }
  }

  lemma ReplacementOf(content: string, start: nat, key: string, v: string) returns (e: string)
    requires IsKey(key) && start <= |content|
    ensures Replacement(content, start, key, v) == key + "=\"" + e && EndsInQuote(e)
  {
    hide HasPattern, LineEnd;
    var end := start + LineEnd(content[start..]);
    var before, matched, after := content[..start], content[start..end], content[end..];
    var prefix, t := key + "=\"", v + "\"";
    assert Assigned(key, v) == prefix + t;
    assert forall i | 0 <= i < |key| :: prefix[i] == key[i] && IsNameChar(key[i]);
    ExpandPrefix(prefix, t, before, matched, after);
    ExpansionEndsInQuote(t, before, matched, after);
    e := Expand(t, before, matched, after);
  }

  /** A line written with expansions does not begin like the line that was meant. */
  lemma ExpandedShows(content: string, key: string, v: string)
    requires IsKey(key) && HasPattern(v) && MatchAt(content, key, true).Some?
    requires OneLine(Replacement(content, MatchAt(content, key, true).value, key, v))
    ensures !(Assigned(key, v) <= Replacement(content, MatchAt(content, key, true).value, key, v))
  {
    hide Expand, HasPattern, LineEnd, OneLine;
    var start := MatchAt(content, key, true).value;
    var end := start + LineEnd(content[start..]);
    MatchIsLine(content, key);
    PatternOfAssigned(key, v);
    PatternShows(Assigned(key, v), content[..start], content[start..end], content[end..]);
  }

  /** An expanded value that stays on its line is never read back. */
  lemma ExpandedIsNotReadBack(content: string, key: string, v: string)
    requires IsKey(key) && IsPlain(v) && HasPattern(v)
    requires MatchAt(content, key, true).Some? && Assignments(content, key) == 1
    requires OneLine(Replacement(content, MatchAt(content, key, true).value, key, v))
    ensures var after := Parse(UpdateSpec(content, key, v)); key in after && after[key] != v
  {
    hide Expand, HasPattern, LineEnd, OneLine, ParseLine;
    var start := MatchAt(content, key, true).value;
    var end := start + LineEnd(content[start..]);
    var line := Replacement(content, start, key, v);
    var e := ReplacementOf(content, start, key, v);
    var read := e[..IndexOf(e, '"')];
    ParseQuoted(key, e);
    MatchStarts(content, key, true);
    LinesOfEdit(content, key, line, true);
    MergeOfRewrite(Lines(content), key, line, read);
    if read == v {
      assert v + "\"" == e[..|v| + 1];
      assert Assigned(key, v) == line[..|key| + 2 + |v| + 1];
      ExpandedShows(content, key, v);
    }
  }

  /**
   Where the write lands, the value reads back exactly when the key is not
   there yet or the value holds no pattern - as long as an expansion brings no
   line break from the text around the match.
   */
  lemma LandedWriteReadsBackExactlyWhen(content: string, key: string, v: string)
    requires IsKey(key) && IsPlain(v) && Lands(content, key)
    requires var at := MatchAt(content, key, true);
      at.Some? ==> OneLine(Replacement(content, at.value, key, v))
    ensures Parse(UpdateSpec(content, key, v)) == Parse(content)[key := v]
      <==> !Contains(content, key + "=") || !HasPattern(v)
  {
    hide Expand, HasPattern, LineEnd, OneLine, Parse, UpdateSpec, Replacement;
    MatchStarts(content, key, true);
    if Unexpanded(content, key, v) {
      WriteReadsBackExactlyWhen(content, key, v);
      LandsMeansMatch(content, key);
    } else {
      LandsMeansMatch(content, key);
      ExpandedIsNotReadBack(content, key, v);
    }
  }

  /** Where the write lands, the key is found exactly when `KEY=` is. */
  lemma LandsMeansMatch(content: string, key: string)
    requires IsKey(key) && Lands(content, key)
    ensures MatchAt(content, key, true).Some? <==> Contains(content, key + "=")
    ensures MatchAt(content, key, true).Some? ==> Assignments(content, key) == 1
  {
    hide LineEnd, Edited;
    MatchStarts(content, key, true);
    LinesOfEdit(content, key, "", true);
  }

  /** A `$` before a backtick or a single quote: the patterns that copy the text around the match. */
  predicate CopiesAround(t: string) {
    exists i | 0 <= i < |t| - 1 :: t[i] == '$' && (t[i + 1] == '`' || t[i + 1] == '\'')
  }

  lemma CopiesLater(t: string, n: nat)
    requires n <= |t| && CopiesAround(t[n..])
    ensures CopiesAround(t)
  {
    var i :| 0 <= i < |t[n..]| - 1 && t[n..][i] == '$' && (t[n..][i + 1] == '`' || t[n..][i + 1] == '\'');
    assert t[n + i] == '$' && t[n + i + 1] == t[n..][i + 1];
  }

  lemma PatternIsOneLine(t: string, before: string, matched: string, after: string)
    requires |t| >= 2 && t[0] == '$' && OneLine(matched)
    requires CopiesAround(t) ==> OneLine(before) && OneLine(after)
    ensures IsPatternChar(t[1]) ==> OneLine(PatternText(t[1], before, matched, after))
  {
  }

  lemma {:induction false} ExpansionIsOneLine(t: string, before: string, matched: string, after: string)
    requires OneLine(t) && OneLine(matched) && (CopiesAround(t) ==> OneLine(before) && OneLine(after))
    ensures OneLine(Expand(t, before, matched, after))
    decreases |t|
  {
    hide OneLine, CopiesAround, PatternText;
    if |t| >= 2 && t[0] == '$' && IsPatternChar(t[1]) {
      if CopiesAround(t[2..]) { CopiesLater(t, 2); }
      assert t == t[..2] + t[2..];
      OneLineParts(t[..2], t[2..]);
      PatternIsOneLine(t, before, matched, after);
      ExpansionIsOneLine(t[2..], before, matched, after);
      OneLineParts(PatternText(t[1], before, matched, after), Expand(t[2..], before, matched, after));
    } else if t != "" {
      if CopiesAround(t[1..]) { CopiesLater(t, 1); }
      assert t == [t[0]] + t[1..];
      OneLineParts([t[0]], t[1..]);
      ExpansionIsOneLine(t[1..], before, matched, after);
      OneLineParts([t[0]], Expand(t[1..], before, matched, after));
    }
  }

  lemma CopiesOfAssigned(key: string, v: string)
    requires IsKey(key) && CopiesAround(Assigned(key, v))
    ensures CopiesAround(v)
  {
    var t, n := Assigned(key, v), |key| + 2;
    var i :| 0 <= i < |t| - 1 && t[i] == '$' && (t[i + 1] == '`' || t[i + 1] == '\'');
    assert forall k | 0 <= k < |key| :: t[k] == key[k] && IsNameChar(key[k]);
    assert n <= i && v[i - n] == '$' && v[i - n + 1] == t[i + 1];
  }

  /**
   For a value that does not copy the text around the match the proviso always
   holds: where its write lands, it reads back exactly when the key is not there
   yet or the value holds no pattern.
   */
  lemma OwnLineValueReadsBackExactlyWhen(content: string, key: string, v: string)
    requires IsKey(key) && IsPlain(v) && Lands(content, key) && !CopiesAround(v)
    ensures Parse(UpdateSpec(content, key, v)) == Parse(content)[key := v]
      <==> !Contains(content, key + "=") || !HasPattern(v)
  {
    hide Parse, UpdateSpec, Lands, HasPattern, Expand, CopiesAround, Contains;
    if MatchAt(content, key, true).Some? {
      var start := MatchAt(content, key, true).value;
      var end := start + LineEnd(content[start..]);
      assert content[start..end] == content[start..][..LineEnd(content[start..])];
      AssignedIsOneLine(key, v);
      if CopiesAround(Assigned(key, v)) { CopiesOfAssigned(key, v); }
      ExpansionIsOneLine(Assigned(key, v), content[..start], content[start..end], content[end..]);
    }
    LandedWriteReadsBackExactlyWhen(content, key, v);
  }

  /** A file of one line, which assigns the key: a write lands, and its expansion sees nothing but that line. */
  lemma OneLineFile(key: string, was: string, v: string)
    requires IsKey(key) && OneLine(was) && OneLine(v)
    ensures var content := key + "=" + was;
      && MatchAt(content, key, true) == Some(0) && Contains(content, key + "=") && Lands(content, key)
      && Replacement(content, 0, key, v) == Expand(Assigned(key, v), "", content, "")
      && OneLine(Replacement(content, 0, key, v))
      && UpdateSpec(content, key, v) == Replacement(content, 0, key, v)
      && Lines(content) == [content]
  {
    hide Expand;
    var content := key + "=" + was;
    assert content[..|key| + 1] == key + "=" && content[..|key| + 1] <= content;
    MatchStarts(content, key, true);
    LineEndOf(content, "");
    LinesOfPrefix(content, "");
    assert content + "" == content && content[0..] == content && content[..0] == "" && content[|content|..] == "";
    assert [content][1..] == [];
    assert Lines(content) == [content] && AssignsOnce(content, key) == 1 && Count([content], key) == 1;
    AssignedIsOneLine(key, v);
    ExpansionIsOneLine(Assigned(key, v), "", content, "");
    var line := Replacement(content, 0, key, v);
    assert content[..0] + line + content[0 + |content|..] == line;
  }

  /** A value survives every file its write lands in exactly when it holds no pattern. */
  lemma SafeInEveryFileExactlyWhen(key: string, v: string)
    requires IsKey(key) && IsPlain(v)
    ensures (forall content | Lands(content, key) :: Parse(UpdateSpec(content, key, v)) == Parse(content)[key := v])
      <==> !HasPattern(v)
  {
    hide HasPattern, Parse, UpdateSpec, Lands;
    if HasPattern(v) {
      OneLineFile(key, "", v);
      LandedWriteReadsBackExactlyWhen(key + "=" + "", key, v);
    } else {
      forall content | Lands(content, key) ensures Parse(UpdateSpec(content, key, v)) == Parse(content)[key := v] {
        WriteReadsBackExactlyWhen(content, key, v);
      }
    }
  }

  lemma PatternOfOldLine(key: string, matched: string)
    requires IsKey(key)
    ensures Expand(Assigned(key, "$&"), "", matched, "") == Assigned(key, matched)
  {
    var prefix := key + "=\"";
    assert Assigned(key, "$&") == prefix + "$&\"";
    assert forall i | 0 <= i < |key| :: prefix[i] == key[i] && IsNameChar(key[i]);
    ExpandPrefix(prefix, "$&\"", "", matched, "");
    assert "$&\""[2..] == "\"" && Expand("\"", "", matched, "") == "\"";
    assert Assigned(key, matched) == prefix + (matched + "\"");
  }

  /**
   What each pattern stands for: a `$`, the old line, the text before it, the text behind it;
   any other pair, for itself.
   */
  lemma PatternsStandFor(c: char, before: string, matched: string, after: string)
    ensures Expand(['$', c], before, matched, after) ==
      if c == '$' then "$" else if c == '&' then matched else if c == '`' then before
      else if c == '\'' then after else ['$', c]
  {
    var t := ['$', c];
    assert t[2..] == "" && t[1..] == [c] && [c][1..] == "";
    assert Expand(t[2..], before, matched, after) == "" && Expand(t[1..], before, matched, after) == [c];
    assert PatternText(c, before, matched, after) + "" == PatternText(c, before, matched, after);
    assert ['$'] + [c] == t;
  }

  /** The failing input: a `$&` in the value stands for the old line, which then is read back. */
  lemma PatternIsExpanded(key: string, was: string)
    requires IsKey(key) && IsPlain(was)
    ensures Parse(UpdateSpec(key + "=" + was, key, "$&")) == map[key := key + "=" + was]
  {
    hide UpdateSpec, ParseLine, Lands;
    var content := key + "=" + was;
    var line := Assigned(key, content);
    OneLineFile(key, was, "$&");
    PatternOfOldLine(key, content);
    AssignedIsOneLine(key, content);
    LinesOfPrefix(line, "");
    assert line + "" == line && Lines(line) == [] + [line];
    assert forall c | c in key :: IsNameChar(c);
    MeaningOfAppend([], key, content);
  }

  // ------------------------------------------------- read back by accident

  /** A value that names the text before the match twice, around an assignment of the key. */
  function Accident(key: string): string {
    "$`" + (key + "=" + "$`")
  }

  /** The file whose first line is that very value. */
  function AccidentFile(key: string, was: string): string {
    Accident(key) + ("\n" + (key + "=" + was))
  }

  lemma AccidentIsNoMatch(key: string)
    requires IsKey(key)
    ensures OneLine(Accident(key)) && HasPattern(Accident(key)) && MatchAt(Accident(key), key, true).None?
    ensures AssignsOnce(Accident(key), key) == 0 && Lines(Accident(key)) == [Accident(key)]
    ensures Unquoted(Accident(key)) == Accident(key)
  {
    var v := Accident(key);
    assert v[0] == '$' && IsPatternChar(v[1]);
    assert forall i | 0 <= i < |key| :: v[i + 2] == key[i] && IsNameChar(key[i]);
    assert key[0] == (key + "=")[0];
    NoMatchInLine(v[1..], key);
    LinesOfPrefix(v, "");
    assert v + "" == v;
  }

  lemma AccidentExpands(key: string, before: string, matched: string)
    requires IsKey(key)
    ensures Expand(Assigned(key, Accident(key)), before, matched, "")
      == key + "=\"" + (before + (key + "=" + (before + "\"")))
  {
    hide HasPattern;
    var prefix, middle, last := key + "=\"", key + "=", "$`\"";
    assert forall i | 0 <= i < |key| :: prefix[i] == key[i] && middle[i] == key[i] && IsNameChar(key[i]);
    assert last[2..] == "\"" && Expand("\"", before, matched, "") == "\"";
    assert Expand(last, before, matched, "") == before + "\"";
    ExpandPrefix(middle, last, before, matched, "");
    var t := "$`" + (middle + last);
    assert t[2..] == middle + last;
    assert Expand(t, before, matched, "") == before + (middle + (before + "\""));
    assert Assigned(key, Accident(key)) == prefix + t;
    ExpandPrefix(prefix, t, before, matched, "");
  }

  lemma Rechained(v: string, a: string, b: string)
    ensures v + "\n" + (a + (v + "\n" + (b + (v + "\n" + "\""))))
      == v + ("\n" + (a + v)) + ("\n" + (b + v)) + ("\n" + "\"")
  {
    assert v + "\n" + (b + (v + "\n" + "\"")) == v + ("\n" + (b + v)) + ("\n" + "\"");
    Regrouped(v, a, v + ("\n" + (b + v)) + ("\n" + "\""));
    assert v + ("\n" + (a + v)) + (("\n" + (b + v)) + ("\n" + "\""))
      == v + ("\n" + (a + v)) + ("\n" + (b + v)) + ("\n" + "\"");
    assert v + ("\n" + (b + v)) + ("\n" + "\"") == v + (("\n" + (b + v)) + ("\n" + "\""));
  }

  lemma Regrouped(v: string, a: string, x: string)
    ensures v + "\n" + (a + x) == v + ("\n" + a) + x
  {
  }

  lemma AccidentMatch(key: string, was: string)
    requires IsKey(key) && OneLine(was)
    ensures var content, start := AccidentFile(key, was), |Accident(key)| + 1;
      && MatchAt(content, key, true) == Some(start) && Contains(content, key + "=")
      && start <= |content| && content[..start] == Accident(key) + "\n"
      && start + LineEnd(content[start..]) == |content| && content[start..] == key + "=" + was
  {
    hide HasPattern, MatchAt, LineEnd, IsKey, Accident, IsTerminator;
    var v, line, content := Accident(key), key + "=" + was, AccidentFile(key, was);
    AccidentIsNoMatch(key);
    assert line[..|key| + 1] == key + "=" && line[..|key| + 1] <= line;
    MatchAppended(v, key, line, true);
    assert content[|v| + 1..] == line && StartsWith(content[|v| + 1..], key + "=");
    KeyLineIsOneLine(key, was);
    LineEndOf(line, "");
    assert line + "" == line;
  }

  lemma KeyLineIsOneLine(key: string, was: string)
    requires IsKey(key) && OneLine(was)
    ensures OneLine(key + "=" + was)
  {
    assert forall i | 0 <= i < |key| :: IsNameChar(key[i]) && !IsTerminator(key[i]);
  }

  lemma AccidentUpdate(key: string, was: string)
    requires IsKey(key) && OneLine(was)
    ensures var v := Accident(key);
      UpdateSpec(AccidentFile(key, was), key, v)
        == v + ("\n" + (key + "=\"" + v)) + ("\n" + (key + "=" + v)) + ("\n" + "\"")
  {
    hide Expand, Assigned, MatchAt, LineEnd, Accident, AccidentFile, Contains;
    var v, content := Accident(key), AccidentFile(key, was);
    var start := |v| + 1;
    AccidentMatch(key, was);
    AccidentExpands(key, v + "\n", key + "=" + was);
    assert content[start..|content|] == content[start..] && content[|content|..] == "";
    var text := key + "=\"" + (v + "\n" + (key + "=" + (v + "\n" + "\"")));
    assert Replacement(content, start, key, v) == text;
    assert Edited(content, start, text) == v + "\n" + text + "";
    Rechained(v, key + "=\"", key + "=");
  }

  lemma AccidentMeans(key: string, m: map<string, string>, x: string, v: string, was: string)
    ensures m + map[key := x] + map[key := v] + map[] == (m + map[key := was])[key := v]
  {
  }

  lemma AccidentReads(key: string)
    requires IsKey(key)
    ensures var v := Accident(key);
      Parse(v + ("\n" + (key + "=\"" + v)) + ("\n" + (key + "=" + v)) + ("\n" + "\""))
        == Merge([v]) + map[key := Unquoted("\"" + v)] + map[key := v] + map[]
  {
    hide ParseLine, HasPattern, Accident, Merge, Lines;
    var v := Accident(key);
    var quoted, plain := key + "=\"" + v, key + "=" + v;
    AccidentIsNoMatch(key);
    assert forall i | 0 <= i < |key| :: IsNameChar(key[i]) && !IsTerminator(key[i]);
    LinesOfAppend(v, quoted);
    LinesOfAppend(v + ("\n" + quoted), plain);
    LinesOfAppend(v + ("\n" + quoted) + ("\n" + plain), "\"");
    MergeOfAppend([v], quoted);
    MergeOfAppend([v] + [quoted], plain);
    MergeOfAppend([v] + [quoted] + [plain], "\"");
    assert quoted == key + "=" + ("\"" + v);
    ParseLineOf(key, "\"" + v);
    ParseLineOf(key, v);
    QuoteAloneMeansNothing();
  }

  lemma QuoteAloneMeansNothing()
    ensures ParseLine("\"") == map[]
  {
  }

  /** The file before: its one assignment of the key is the last line. */
  lemma AccidentFileReads(key: string, was: string)
    requires IsKey(key) && OneLine(was)
    ensures Parse(AccidentFile(key, was)) == Merge([Accident(key)]) + map[key := Unquoted(was)]
    ensures Assignments(AccidentFile(key, was), key) == 1
  {
    hide ParseLine, HasPattern, Accident, Lines;
    var v, line := Accident(key), key + "=" + was;
    AccidentIsNoMatch(key);
    assert forall i | 0 <= i < |key| :: IsNameChar(key[i]) && !IsTerminator(key[i]);
    LinesOfAppend(v, line);
    MergeOfAppend([v], line);
    ParseLineOf(key, was);
    CountOfAppend([v], line, key);
    assert [v][1..] == [] && line[..|key| + 1] == key + "=" && line[..|key| + 1] <= line;
  }

  /**
   Without that proviso there is no such rule: here a value with two patterns,
   written over another one, reads back - through a line that the expansion makes
   of the file's own first line.
   */
  lemma ExpandedMayReadBack(key: string, was: string)
    requires IsKey(key) && OneLine(was)
    ensures var content, v := AccidentFile(key, was), Accident(key);
      && HasPattern(v) && Contains(content, key + "=") && Lands(content, key)
      && key in Parse(content) && Parse(content)[key] == Unquoted(was)
      && Parse(UpdateSpec(content, key, v)) == Parse(content)[key := v]
  {
    hide UpdateSpec, Parse, HasPattern, Contains, Accident, AccidentFile, Unquoted;
    var v := Accident(key);
    AccidentIsNoMatch(key);
    AccidentMatch(key, was);
    AccidentUpdate(key, was);
    AccidentReads(key);
    AccidentFileReads(key, was);
    AccidentMeans(key, Merge([v]), Unquoted("\"" + v), v, Unquoted(was));
  }
}
