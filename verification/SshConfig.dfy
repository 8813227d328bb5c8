/**
 The sshd_config writer and reader.  The writer edits the text through regular
 expressions: it rewrites the first active directive at the start of a line, or
 else the first commented one, or else puts a new line on top.  The reader goes
 through the lines, and the last active directive wins.
 */
module SshConfig {
  import opened Options
  import opened Text

  // -------------------------------------------------------------------- text

  /** `split('\n')` */
  function Split(s: string): (ls: seq<string>)
    ensures ls != []
  {
    if s == "" then [""]
    else
      var ls := Split(s[1..]);
      if s[0] == '\n' then [""] + ls else [[s[0]] + ls[0]] + ls[1..]
  }

  /** Two lists of lines, the last line of one and the first of the other being one. */
  function Glue(x: seq<string>, y: seq<string>): (g: seq<string>)
    requires x != [] && y != []
    ensures |g| == |x| + |y| - 1
  {
    x[..|x| - 1] + [x[|x| - 1] + y[0]] + y[1..]
  }

  function WordSpan(s: string): (n: nat)
    ensures n <= |s| && forall i | 0 <= i < n :: !IsSpace(s[i])
    ensures n < |s| ==> IsSpace(s[n])
  {
    if s != "" && !IsSpace(s[0]) then 1 + WordSpan(s[1..]) else 0
  }

  // ------------------------------------------------------------------ reader

  /** `parseInt(token, 10)`: None is NaN. */
  function ReadInt(token: string): Option<int> {
    var signed := token != "" && (token[0] == '-' || token[0] == '+');
    var n := ParseInt(if signed then token[1..] else token);
    if n.None? then None
    else
      var v: int := n.value;
      Some(if token[0] == '-' then -v else v)
  }

  /** The argument of an active directive: the second blank-separated token of the line. */
  function Argument(line: string, name: string): Option<string> {
    var t := Trim(line);
    if StartsWith(t, "#") || !StartsWith(t, name + " ") then None
    else
      var rest := t[|name|..];
      var word := rest[SpaceSpan(rest)..];
      Some(word[..WordSpan(word)])
  }

  function LastArgument(lines: seq<string>, name: string): Option<string> {
    if lines == [] then None
    else
      match LastArgument(lines[1..], name)
      case Some(a) => Some(a)
      case None => Argument(lines[0], name)
  }

  function PortOf(argument: Option<string>): Option<int> {
    match argument case None => Some(22) case Some(a) => ReadInt(a)
  }

  function RootOf(argument: Option<string>): bool {
    argument == Some("yes")
  }

  datatype Reading = Reading(port: Option<int>, permitRootLogin: bool)

  function ReadSpec(content: string): Reading {
    Reading(PortOf(LastArgument(Split(content), "Port")), RootOf(LastArgument(Split(content), "PermitRootLogin")))
  }

  // ------------------------------------------------------------------ writer

  datatype Directive = Port | PermitRootLogin
  {
    function Name(): string {
      match this case Port => "Port" case PermitRootLogin => "PermitRootLogin"
    }

    /** `\d+` for the port, `\S+` for the root login. */
    function ValueSpan(s: string): (n: nat)
      ensures n <= |s| && forall i | 0 <= i < n :: !IsSpace(s[i])
    {
      match this
      case Port =>
        DigitSpan(s)
      case PermitRootLogin => WordSpan(s)
    }

    /** The length of a match of `prefix\s+value` at the start of s. */
    function MatchHere(s: string, prefix: string): (r: Option<nat>)
      ensures r.Some? ==> |prefix| < r.value <= |s| && StartsWith(s, prefix)
    {
      if !StartsWith(s, prefix) then None
      else
        var gap := SpaceSpan(s[|prefix|..]);
        var n := ValueSpan(s[|prefix| + gap..]);
        if gap == 0 || n == 0 then None else Some(|prefix| + gap + n)
    }

    /** Where `^prefix\s+value` first matches: behind a line terminator, or at the start of the text (`atStart`). */
    function Find(s: string, prefix: string, atStart: bool): (r: Option<nat>)
      ensures r.Some? ==> r.value <= |s| && MatchHere(s[r.value..], prefix).Some?
    {
      if atStart && MatchHere(s, prefix).Some? then
        assert s[0..] == s;
        Some(0)
      else if s == "" then None
      else
        match Find(s[1..], prefix, IsTerminator(s[0]))
        case None => None
        case Some(start) =>
          assert s[start + 1..] == s[1..][start..];
          Some(start + 1)
    }

    /** The start and the end of the first match. */
    function Match(content: string, prefix: string): (r: Option<(nat, nat)>)
      ensures r.Some? ==> r.value.0 <= r.value.1 <= |content|
    {
      match Find(content, prefix, true)
      case None => None
      case Some(start) => Some((start, start + MatchHere(content[start..], prefix).value))
    }

    /** What the writer replaces: the active directive, or else the commented one. */
    function Target(content: string): (r: Option<(nat, nat)>)
      ensures r.Some? ==> r.value.0 <= r.value.1 <= |content|
    {
      if Match(content, Name()).Some? then Match(content, Name()) else Match(content, "#" + Name())
    }

    function Write(content: string, value: string): string {
      match Target(content)
      case Some((start, end)) => content[..start] + (Name() + " " + value) + content[end..]
      case None => Name() + " " + value + "\n" + content
    }

    /** The lines above the target. */
    function Above(content: string): seq<string> {
      match Target(content)
      case Some((start, _)) => Split(content[..start])[..|Split(content[..start])| - 1]
      case None => []
    }

    /** What is left of the line the target ends on. */
    function Rest(content: string): string {
      match Target(content)
      case Some((_, end)) => Split(content[end..])[0]
      case None => ""
    }

    /** The lines from the start of the target to the end of the line it ends on. */
    function Replaced(content: string): seq<string> {
      match Target(content)
      case Some((start, end)) => Glue(Split(content[start..end]), [Rest(content)])
      case None => []
    }

    /** The lines below the ones the writer replaces. */
    function Below(content: string): seq<string> {
      match Target(content)
      case Some((_, end)) => Split(content[end..])[1..]
      case None => Split(content)
    }
  }

  function YesNo(b: bool): string {
    if b then "yes" else "no"
  }

  function UpdateSpec(content: string, port: nat, permitRootLogin: bool): string {
    PermitRootLogin.Write(Port.Write(content, Show(port)), YesNo(permitRootLogin))
  }

  class SecurityService {
    /** /etc/ssh/sshd_config */
    var file: Option<string>

    method GetSshConfig() returns (port: Option<int>, permitRootLogin: bool)
      ensures Reading(port, permitRootLogin) == if file.None? then Reading(Some(22), false) else ReadSpec(file.value)
    {
      port := Some(22);
      var rootLogin := "prohibit-password";
      if file.Some? {
        var lines := Split(file.value);
        for i := 0 to |lines|
          invariant port == PortOf(LastArgument(lines[..i], "Port"))
          invariant rootLogin ==
            match LastArgument(lines[..i], "PermitRootLogin") case None => "prohibit-password" case Some(a) => a
        {
          var ports, roots := Argument(lines[i], "Port"), Argument(lines[i], "PermitRootLogin");
          LastOfMore(lines[..i], lines[i], "Port");
          LastOfMore(lines[..i], lines[i], "PermitRootLogin");
          assert lines[..i + 1] == lines[..i] + [lines[i]];
          OneDirective(lines[i]);
          if ports.Some? {
            port := ReadInt(ports.value);
          } else if roots.Some? {
            rootLogin := roots.value;
          }
        }
        assert lines[..|lines|] == lines;
      }
      permitRootLogin := rootLogin == "yes";
    }

    /** `restarts`: the firewall and the daemon take the change; they come after the file is written. */
    method UpdateSshConfig(newPort: int, permitRootLogin: bool, restarts: bool) returns (ok: bool)
      modifies this
      ensures ok <==> 1 <= newPort <= 65535 && old(file).Some? && restarts
      ensures file == if 1 <= newPort <= 65535 && old(file).Some?
        then Some(UpdateSpec(old(file).value, newPort, permitRootLogin)) else old(file)
    {
      if newPort < 1 || newPort > 65535 {
        return false;
      }
      if file.None? {
        return false;
      }
      var content := file.value;
      content := Port.Write(content, Show(newPort));
      content := PermitRootLogin.Write(content, YesNo(permitRootLogin));
      file := Some(content);
      ok := restarts;
    }
  }

  // ------------------------------------------------------- lines of an edit

  lemma GlueBelow(first: string, x: seq<string>, y: seq<string>)
    requires x != [] && y != []
    ensures Glue([first] + x, y) == [first] + Glue(x, y)
  {
  }

  lemma GlueBeside(c: char, x: seq<string>, y: seq<string>)
    requires x != [] && y != []
    ensures Glue([[c] + x[0]] + x[1..], y) == [[c] + Glue(x, y)[0]] + Glue(x, y)[1..]
  {
    var z := [[c] + x[0]] + x[1..];
    if |x| == 1 {
      assert [c] + x[0] + y[0] == [c] + (x[0] + y[0]);
    } else {
      assert z[..|z| - 1] == [[c] + x[0]] + x[1..|x| - 1];
    }
  }

  lemma {:induction false} SplitConcat(a: string, b: string)
    ensures Split(a + b) == Glue(Split(a), Split(b))
  {
    if a == "" {
      assert a + b == b && "" + Split(b)[0] == Split(b)[0];
    } else {
      SplitConcat(a[1..], b);
      assert (a + b)[1..] == a[1..] + b;
      GlueBelow("", Split(a[1..]), Split(b));
      GlueBeside(a[0], Split(a[1..]), Split(b));
    }
  }

  lemma {:induction false} SplitOneLine(s: string)
    requires '\n' !in s
    ensures Split(s) == [s]
  {
    if s != "" {
      assert s[0] in s && forall c | c in s[1..] :: c in s;
      SplitOneLine(s[1..]);
      assert [s[0]] + s[1..] == s;
    }
  }

  lemma {:induction false} LastOfConcat(x: seq<string>, y: seq<string>, name: string)
    ensures LastArgument(x + y, name) ==
            if LastArgument(y, name).Some? then LastArgument(y, name) else LastArgument(x, name)
  {
    if x == [] {
      assert x + y == y;
    } else {
      LastOfConcat(x[1..], y, name);
      assert (x + y)[1..] == x[1..] + y;
    }
  }

  lemma LastOfMore(x: seq<string>, line: string, name: string)
    ensures LastArgument(x + [line], name) ==
            if Argument(line, name).Some? then Argument(line, name) else LastArgument(x, name)
  {
    LastOfConcat(x, [line], name);
    assert [line][1..] == [];
  }

  /** A line holds one directive at most. */
  lemma OneDirective(line: string)
    ensures Argument(line, "Port").None? || Argument(line, "PermitRootLogin").None?
  {
    var t := Trim(line);
    assert StartsWith(t, "Port" + " ") ==> t[1] == 'o';
    assert StartsWith(t, "PermitRootLogin" + " ") ==> t[1] == 'e';
  }

  // --------------------------------------------------------- a directive line

  lemma {:induction false} TrimEndOf(a: string, b: string)
    requires a == "" || !IsSpace(a[|a| - 1])
    ensures TrimEnd(a + b) == a + TrimEnd(b)
  {
    if b == "" {
      assert a + b == a;
    } else if IsSpace(b[|b| - 1]) {
      TrimEndOf(a, b[..|b| - 1]);
      assert (a + b)[..|a + b| - 1] == a + b[..|b| - 1];
    }
  }

  lemma {:induction false} TrimEndPrefix(s: string)
    ensures TrimEnd(s) <= s
  {
    if s != "" && IsSpace(s[|s| - 1]) {
      TrimEndPrefix(s[..|s| - 1]);
    }
  }

  lemma {:induction false} WordSpanOf(word: string, rest: string)
    requires forall i | 0 <= i < |word| :: !IsSpace(word[i])
    ensures WordSpan(word + rest) == |word| + WordSpan(rest)
  {
    if word == "" {
      assert word + rest == rest;
    } else {
      WordSpanOf(word[1..], rest);
      assert (word + rest)[1..] == word[1..] + rest;
    }
  }

  predicate IsWord(s: string) {
    s != "" && forall i | 0 <= i < |s| :: !IsSpace(s[i])
  }

  /** The rest of a line behind a maximal value. */
  predicate Ends(d: Directive, rest: string) {
    rest == "" || match d case Port => !IsDigit(rest[0]) case PermitRootLogin => IsSpace(rest[0])
  }

  /** The values the writer writes. */
  ghost predicate IsValue(d: Directive, value: string) {
    match d
    case Port => exists n: nat :: value == Show(n)
    case PermitRootLogin => value == "yes" || value == "no"
  }

  lemma ValueIsWord(d: Directive, value: string)
    requires IsValue(d, value)
    ensures IsWord(value) && '\n' !in value && IsWord(d.Name())
  {
    assert d.Port? ==> AllDigits(value);
    forall i | 0 <= i < |value| ensures !IsSpace(value[i]) {
      assert value[i] in value;
    }
  }

  /** What the reader makes of an argument. */
  predicate Reads(d: Directive, argument: string, value: string) {
    match d
    case Port => ReadInt(argument) == ReadInt(value)
    case PermitRootLogin => (argument == "yes") == (value == "yes")
  }

  lemma TrimOf(head: string, rest: string)
    requires head != "" && !IsSpace(head[0]) && !IsSpace(head[|head| - 1])
    ensures Trim(head + rest) == head + TrimEnd(rest)
  {
    TrimEndOf(head, rest);
    assert SpaceSpan(head + rest) == 0 && (head + rest)[0..] == head + rest;
  }

  lemma ArgumentOfTrimmed(line: string, name: string, value: string, t: string)
    requires IsWord(name) && name[0] != '#' && IsWord(value) && Trim(line) == name + " " + (value + t)
    ensures Argument(line, name) == Some(value + t[..WordSpan(t)])
  {
    var trimmed := Trim(line);
    assert trimmed[..|name| + 1] == name + " " && trimmed[0] == name[0];
    assert trimmed[|name|..] == " " + (value + t);
    SecondToken(value, t);
  }

  lemma SecondToken(value: string, t: string)
    requires IsWord(value)
    ensures var tail := " " + (value + t);
      var word := tail[SpaceSpan(tail)..]; word[..WordSpan(word)] == value + t[..WordSpan(t)]
  {
    var tail := " " + (value + t);
    assert tail[1..] == value + t && (value + t)[0] == value[0];
    assert SpaceSpan(tail) == 1;
    WordSpanOf(value, t);
    assert (value + t)[..|value| + WordSpan(t)] == value + t[..WordSpan(t)];
  }

  lemma ArgumentOf(name: string, value: string, rest: string)
    requires IsWord(name) && name[0] != '#' && IsWord(value)
    ensures Argument(name + " " + value + rest, name) == Some(value + TrimEnd(rest)[..WordSpan(TrimEnd(rest))])
  {
    hide Argument, TrimEnd, WordSpan;
    var head, t := name + " " + value, TrimEnd(rest);
    assert head[0] == name[0] && head[|head| - 1] == value[|value| - 1];
    TrimOf(head, rest);
    assert head + t == name + " " + (value + t);
    ArgumentOfTrimmed(head + rest, name, value, t);
  }

  lemma ArgumentOfWritten(d: Directive, value: string, rest: string)
    requires IsValue(d, value)
    ensures Argument(d.Name() + " " + value + rest, d.Name()) == Some(value + TrimEnd(rest)[..WordSpan(TrimEnd(rest))])
  {
    ValueIsWord(d, value);
    ArgumentOf(d.Name(), value, rest);
  }

  lemma RunOf(d: Directive, rest: string) returns (run: string)
    requires Ends(d, rest)
    ensures run == TrimEnd(rest)[..WordSpan(TrimEnd(rest))]
    ensures run == "" || (d.Port? && !IsDigit(run[0]))
  {
    TrimEndPrefix(rest);
    run := TrimEnd(rest)[..WordSpan(TrimEnd(rest))];
    assert run != "" ==> run[0] == rest[0];
  }

  lemma PortReads(n: nat, run: string)
    requires run == "" || !IsDigit(run[0])
    ensures ReadInt(Show(n) + run) == Some(n)
  {
    ParseIntOfShow(n, run);
    assert Show(n)[0] in Show(n) && (Show(n) + run)[0] == Show(n)[0];
  }

  /** A written line is read as the value written. */
  lemma WrittenLineReads(d: Directive, value: string, rest: string)
    requires IsValue(d, value) && Ends(d, rest)
    ensures var a := Argument(d.Name() + " " + value + rest, d.Name()); a.Some? && Reads(d, a.value, value)
  {
    ArgumentOfWritten(d, value, rest);
    var run := RunOf(d, rest);
    if d.Port? {
      var n: nat :| value == Show(n);
      PortReads(n, run);
      PortReads(n, "");
      assert value + "" == value;
    } else {
      assert value + run == value;
    }
  }

  predicate BeginsWith(line: string, d: Directive) {
    StartsWith(line, d.Name()) || StartsWith(line, "#" + d.Name())
  }

  /** A line that begins with one directive, commented or not, is nothing to the other. */
  lemma ForeignLine(line: string, d: Directive, other: Directive)
    requires BeginsWith(line, d) && d != other
    ensures Argument(line, other.Name()).None?
  {
    if StartsWith(line, d.Name()) {
      TrimBegins(line, d.Name());
      assert Trim(line)[1] == d.Name()[1] != other.Name()[1];
      assert (other.Name() + " ")[1] == other.Name()[1];
    } else {
      TrimBegins(line, "#" + d.Name());
      assert Trim(line)[..1] == "#" && Trim(line)[..1] <= Trim(line);
    }
  }

  lemma TrimBegins(line: string, p: string)
    requires StartsWith(line, p) && IsWord(p)
    ensures StartsWith(Trim(line), p)
  {
    assert line == p + line[|p|..];
    TrimOf(p, line[|p|..]);
  }

  // -------------------------------------------------------------- tidy files

  /** A closing carriage return is the only line terminator within a line. */
  predicate TidyLine(line: string) {
    forall i | 0 <= i < |line| && IsTerminator(line[i]) :: line[i] == '\r' && i == |line| - 1
  }

  predicate Tidy(content: string) {
    forall line | line in Split(content) :: TidyLine(line)
  }

  lemma {:induction false} LastLine(s: string)
    ensures var l := Split(s)[|Split(s)| - 1];
      if s == "" || s[|s| - 1] == '\n' then l == "" else l != "" && l[|l| - 1] == s[|s| - 1]
  {
    if |s| > 1 {
      LastLine(s[1..]);
    }
  }

  lemma FirstChar(s: string)
    ensures s != "" && s[0] != '\n' ==> Split(s)[0] != "" && Split(s)[0][0] == s[0]
    ensures s == "" || s[0] == '\n' ==> Split(s)[0] == ""
  {
  }

  lemma JoinedLine(pre: string, tail: string)
    ensures Split(pre)[|Split(pre)| - 1] + Split(tail)[0] in Split(pre + tail)
  {
    SplitConcat(pre, tail);
    var k := |Split(pre)| - 1;
    assert Split(pre + tail)[k] == Split(pre)[k] + Split(tail)[0];
  }

  lemma NothingBefore(l: string, first: string)
    requires TidyLine(l + first) && first != "" && (l == "" || IsTerminator(l[|l| - 1]))
    ensures l == ""
  {
    assert forall i | 0 <= i < |l| :: (l + first)[i] == l[i];
  }

  lemma LineStart(pre: string, tail: string)
    requires TidyLine(Split(pre)[|Split(pre)| - 1] + Split(tail)[0]) && tail != "" && !IsTerminator(tail[0])
    requires pre == "" || IsTerminator(pre[|pre| - 1])
    ensures Split(pre)[|Split(pre)| - 1] == "" && TidyLine(Split(tail)[0])
  {
    assert IsTerminator('\n');
    hide Split, TidyLine, IsTerminator;
    var l, first := Split(pre)[|Split(pre)| - 1], Split(tail)[0];
    LastLine(pre);
    FirstChar(tail);
    NothingBefore(l, first);
    assert l + first == first;
  }

  lemma FirstLineOf(x: string, y: string)
    requires '\n' !in x
    ensures Split(x + ("\n" + y)) == [x] + Split(y)
  {
    SplitConcat(x, "\n" + y);
    SplitOneLine(x);
    assert ("\n" + y)[1..] == y && x + "" == x;
  }

  // -------------------------------------------------------------- one write

  lemma {:induction false} FoundAtLineStart(d: Directive, s: string, prefix: string, atStart: bool)
    requires d.Find(s, prefix, atStart).Some?
    ensures var start := d.Find(s, prefix, atStart).value; if start == 0 then atStart else IsTerminator(s[start - 1])
  {
    if !(atStart && d.MatchHere(s, prefix).Some?) {
      FoundAtLineStart(d, s[1..], prefix, IsTerminator(s[0]));
      var start := d.Find(s[1..], prefix, IsTerminator(s[0])).value;
      assert start > 0 ==> s[start] == s[1..][start - 1];
    }
  }

  /** A match takes all of its value. */
  lemma MatchEnds(d: Directive, s: string, prefix: string)
    requires d.MatchHere(s, prefix).Some?
    ensures var n := d.MatchHere(s, prefix).value; Ends(d, s[n..]) && !IsSpace(s[n - 1])
  {
    hide IsSpace, SpaceSpan;
    var gap := SpaceSpan(s[|prefix|..]);
    var rest := s[|prefix| + gap..];
    var n := d.ValueSpan(rest);
    assert s[d.MatchHere(s, prefix).value..] == rest[n..];
    assert s[|prefix| + gap + n - 1] == rest[n - 1];
  }

  lemma EndsOfLine(d: Directive, s: string)
    requires Ends(d, s)
    ensures Ends(d, Split(s)[0])
  {
    FirstChar(s);
  }

  /** The lines of a text in three parts, of which the first ends a line. */
  lemma SplitAround(pre: string, m: string, post: string)
    requires Split(pre)[|Split(pre)| - 1] == ""
    ensures Split(pre + m + post)
      == Split(pre)[..|Split(pre)| - 1] + Glue(Split(m), [Split(post)[0]]) + Split(post)[1..]
  {
    hide Split, Glue;
    SplitConcat(m, post);
    SplitConcat(pre, m + post);
    assert pre + m + post == pre + (m + post);
    GlueEnds(Split(pre), Split(m), Split(post));
  }

  lemma GlueEnds(x: seq<string>, y: seq<string>, z: seq<string>)
    requires x != [] && y != [] && z != [] && x[|x| - 1] == ""
    ensures Glue(x, Glue(y, z)) == x[..|x| - 1] + Glue(y, [z[0]]) + z[1..]
  {
    var g := Glue(y, z);
    assert "" + g[0] == g[0];
    assert g == Glue(y, [z[0]]) + z[1..];
    assert Glue(x, g) == x[..|x| - 1] + g;
  }

  predicate IsTail(line: string, rest: string) {
    |rest| < |line| && rest == line[|line| - |rest|..]
  }

  /** A match in a tidy file begins its line. */
  lemma TidyMatch(d: Directive, content: string, prefix: string, start: nat)
    returns (pre: string, m: string, post: string)
    requires Tidy(content) && start <= |content| && prefix in [d.Name(), "#" + d.Name()]
    requires d.MatchHere(content[start..], prefix).Some? && (start == 0 || IsTerminator(content[start - 1]))
    ensures content == pre + m + post && |pre| == start && d.MatchHere(content[start..], prefix) == Some(|m|)
    ensures StartsWith(m, prefix) && !IsSpace(m[|m| - 1]) && Ends(d, post)
    ensures Split(pre)[|Split(pre)| - 1] == ""
  {
    hide Split, IsSpace, IsTerminator, Tidy, TidyLine, Ends, Directive.MatchHere;
    pre := content[..start];
    var tail := content[start..];
    TidyAt(content, start);
    m, post := MatchOfLine(d, pre, tail, prefix);
    assert content == pre + tail == pre + m + post;
  }

  lemma TidyAt(content: string, start: nat)
    requires Tidy(content) && start <= |content|
    ensures TidyLine(Split(content[..start])[|Split(content[..start])| - 1] + Split(content[start..])[0])
  {
    JoinedLine(content[..start], content[start..]);
    assert content == content[..start] + content[start..];
  }

  lemma MatchOfLine(d: Directive, pre: string, tail: string, prefix: string) returns (m: string, post: string)
    requires TidyLine(Split(pre)[|Split(pre)| - 1] + Split(tail)[0])
    requires prefix in [d.Name(), "#" + d.Name()] && d.MatchHere(tail, prefix).Some?
    requires pre == "" || IsTerminator(pre[|pre| - 1])
    ensures tail == m + post && d.MatchHere(tail, prefix) == Some(|m|)
    ensures StartsWith(m, prefix) && !IsSpace(m[|m| - 1]) && Ends(d, post)
    ensures Split(pre)[|Split(pre)| - 1] == ""
  {
    hide Split, IsSpace, Directive.MatchHere;
    var n := d.MatchHere(tail, prefix).value;
    m, post := tail[..n], tail[n..];
    Names(d, prefix);
    assert tail[0] == prefix[0];
    LineStart(pre, tail);
    MatchEnds(d, tail, prefix);
    assert tail[..|prefix|] == prefix && m[..|prefix|] == prefix;
  }

  lemma Names(d: Directive, prefix: string)
    requires prefix in [d.Name(), "#" + d.Name()]
    ensures prefix != "" && !IsTerminator(prefix[0]) && '\n' !in prefix
  {
    assert "#" + d.Name() == if d.Port? then "#Port" else "#PermitRootLogin";
  }

  /**
   One write replaces the lines of the target by one, which keeps what is left of
   the last of them, or adds one on top; it changes no other line.
   */
  lemma WriteReplacesLines(d: Directive, content: string, value: string)
    requires Tidy(content) && IsValue(d, value)
    ensures Split(content) == d.Above(content) + d.Replaced(content) + d.Below(content)
    ensures Split(d.Write(content, value))
      == d.Above(content) + [d.Name() + " " + value + d.Rest(content)] + d.Below(content)
    ensures Ends(d, d.Rest(content))
    ensures d.Target(content).Some? ==>
      var replaced := d.Replaced(content);
      && replaced != [] && BeginsWith(replaced[0], d) && IsTail(replaced[|replaced| - 1], d.Rest(content))
  {
    hide Split, Tidy, Glue, IsTail, BeginsWith, Directive.Match;
    if d.Target(content).None? {
      ValueIsWord(d, value);
      PrependLines(d, content, value);
    } else {
      MatchLines(d, content, value, if d.Match(content, d.Name()).Some? then d.Name() else "#" + d.Name());
    }
  }

  lemma MatchLines(d: Directive, content: string, value: string, prefix: string)
    requires Tidy(content) && IsValue(d, value)
    requires prefix in [d.Name(), "#" + d.Name()] && d.Match(content, prefix).Some?
    ensures var (start, end) := d.Match(content, prefix).value;
      var above := Split(content[..start])[..|Split(content[..start])| - 1];
      var rest, below := Split(content[end..])[0], Split(content[end..])[1..];
      var replaced := Glue(Split(content[start..end]), [rest]);
      && Split(content) == above + replaced + below
      && Split(content[..start] + (d.Name() + " " + value) + content[end..])
        == above + [d.Name() + " " + value + rest] + below
      && replaced != [] && BeginsWith(replaced[0], d) && IsTail(replaced[|replaced| - 1], rest) && Ends(d, rest)
  {
    hide Split, Tidy, Glue, IsTail, BeginsWith, Ends, Directive.Match;
    var pre, m, post := MatchParts(d, content, prefix);
    var (start, end) := d.Match(content, prefix).value;
    assert content[..start] == pre && content[start..end] == m && content[end..] == post;
    ValueIsWord(d, value);
    ReplaceLines(d, value, prefix, pre, m, post);
    EndsOfLine(d, post);
  }

  lemma MatchParts(d: Directive, content: string, prefix: string) returns (pre: string, m: string, post: string)
    requires Tidy(content) && prefix in [d.Name(), "#" + d.Name()] && d.Match(content, prefix).Some?
    ensures content == pre + m + post && d.Match(content, prefix) == Some((|pre|, |pre| + |m|))
    ensures StartsWith(m, prefix) && m != "" && !IsSpace(m[|m| - 1]) && Ends(d, post)
    ensures Split(pre)[|Split(pre)| - 1] == ""
  {
    hide Split, Tidy, Directive.Find, Directive.MatchHere;
    var start := d.Match(content, prefix).value.0;
    FoundAtLineStart(d, content, prefix, true);
    pre, m, post := TidyMatch(d, content, prefix, start);
    Names(d, prefix);
  }

  lemma PrependLines(d: Directive, content: string, value: string)
    requires '\n' !in value
    ensures Split(d.Name() + " " + value + "\n" + content) == [] + [d.Name() + " " + value + ""] + Split(content)
    ensures Split(content) == [] + [] + Split(content)
  {
    var text := d.Name() + " " + value;
    assert '\n' !in d.Name();
    FirstLineOf(text, content);
    assert text + "\n" + content == text + ("\n" + content) && text + "" == text;
  }

  lemma ReplaceLines(d: Directive, value: string, prefix: string, pre: string, m: string, post: string)
    requires '\n' !in value
    requires StartsWith(m, prefix) && m != "" && !IsSpace(m[|m| - 1]) && prefix in [d.Name(), "#" + d.Name()]
    requires Split(pre)[|Split(pre)| - 1] == ""
    ensures var above, rest := Split(pre)[..|Split(pre)| - 1], Split(post)[0];
      var replaced := Glue(Split(m), [rest]);
      && Split(pre + m + post) == above + replaced + Split(post)[1..]
      && Split(pre + (d.Name() + " " + value) + post) == above + [d.Name() + " " + value + rest] + Split(post)[1..]
      && replaced != [] && BeginsWith(replaced[0], d) && IsTail(replaced[|replaced| - 1], rest)
  {
    hide Split, Glue, IsTail, BeginsWith, StartsWith, IsSpace, Directive.Name;
    var text, rest := d.Name() + " " + value, Split(post)[0];
    SplitAround(pre, m, post);
    NamedValue(d, value);
    SplitOneLine(text);
    SplitAround(pre, text, post);
    GlueOne(text, rest);
    ReplacedEnds(d, prefix, m, rest);
  }

  lemma NamedValue(d: Directive, value: string)
    requires '\n' !in value
    ensures '\n' !in d.Name() + " " + value
  {
    assert '\n' !in d.Name();
  }

  lemma ReplacedEnds(d: Directive, prefix: string, m: string, rest: string)
    requires StartsWith(m, prefix) && m != "" && !IsSpace(m[|m| - 1]) && prefix in [d.Name(), "#" + d.Name()]
    ensures var replaced := Glue(Split(m), [rest]);
      replaced != [] && BeginsWith(replaced[0], d) && IsTail(replaced[|replaced| - 1], rest)
  {
    hide Split, Glue, IsTail, BeginsWith, StartsWith;
    Names(d, prefix);
    PrefixBegins(Glue(Split(m), [rest])[0], prefix, d);
    FirstLineStarts(m, prefix, rest);
    LastLine(m);
    TailOfGlued(Split(m), rest);
  }

  lemma GlueOne(text: string, rest: string)
    ensures Glue([text], [rest]) == [text + rest]
  {
  }

  lemma PrefixBegins(line: string, prefix: string, d: Directive)
    requires prefix in [d.Name(), "#" + d.Name()]
    ensures StartsWith(line, prefix) ==> BeginsWith(line, d)
  {
  }

  lemma FirstLineStarts(m: string, prefix: string, rest: string)
    requires StartsWith(m, prefix) && '\n' !in prefix
    ensures StartsWith(Glue(Split(m), [rest])[0], prefix)
  {
    var tail := m[|prefix|..];
    assert m == prefix + tail;
    SplitOneLine(prefix);
    SplitConcat(prefix, tail);
    assert Split(m)[0] == prefix + Split(tail)[0];
  }

  lemma TailOfGlued(x: seq<string>, rest: string)
    requires x != [] && x[|x| - 1] != ""
    ensures var g := Glue(x, [rest]); IsTail(g[|g| - 1], rest)
  {
    var l := x[|x| - 1];
    assert (l + rest)[|l|..] == rest;
  }

  // ------------------------------------------------------------ reading back

  /** No directive below the written one says otherwise. */
  predicate Agrees(d: Directive, below: seq<string>, value: string) {
    match LastArgument(below, d.Name())
    case None => true
    case Some(a) => Reads(d, a, value)
  }

  lemma LastOfThree(above: seq<string>, line: string, below: seq<string>, name: string)
    ensures LastArgument(above + [line] + below, name) ==
      if LastArgument(below, name).Some? then LastArgument(below, name)
      else if Argument(line, name).Some? then Argument(line, name)
      else LastArgument(above, name)
  {
    LastOfConcat(above + [line], below, name);
    LastOfMore(above, line, name);
  }

  lemma LastOfLines(above: seq<string>, lines: seq<string>, below: seq<string>, name: string)
    ensures LastArgument(above + lines + below, name) ==
      if LastArgument(below, name).Some? then LastArgument(below, name)
      else if LastArgument(lines, name).Some? then LastArgument(lines, name)
      else LastArgument(above, name)
  {
    LastOfConcat(above + lines, below, name);
    LastOfConcat(above, lines, name);
  }

  /** What a write does to the reading of its own directive. */
  lemma WriteReads(d: Directive, content: string, value: string)
    requires Tidy(content) && IsValue(d, value)
    ensures var a := LastArgument(Split(d.Write(content, value)), d.Name());
      && a.Some? && (Reads(d, a.value, value) <==> Agrees(d, d.Below(content), value))
  {
    hide Split, Tidy, Argument, LastArgument, Directive.Target;
    WriteReplacesLines(d, content, value);
    LastOfThree(d.Above(content), d.Name() + " " + value + d.Rest(content), d.Below(content), d.Name());
    WrittenLineReads(d, value, d.Rest(content));
  }

  /**
   A write of one directive takes the other one's argument away: the lines it
   replaces hold the last one, and the lines above say something else.
   */
  predicate Swallows(d: Directive, content: string, other: Directive) {
    var lost := LastArgument(d.Replaced(content), other.Name());
    && LastArgument(d.Below(content), other.Name()).None?
    && lost.Some? && lost != LastArgument(d.Above(content), other.Name())
  }

  /** A write keeps the reading of the other directive exactly when it does not swallow it. */
  lemma WriteKeepsOtherExactlyWhen(d: Directive, content: string, value: string, other: Directive)
    requires Tidy(content) && IsValue(d, value) && d != other
    ensures LastArgument(Split(d.Write(content, value)), other.Name()) == LastArgument(Split(content), other.Name())
      <==> !Swallows(d, content, other)
    ensures Swallows(d, content, other) ==>
      LastArgument(Split(d.Write(content, value)), other.Name()) == LastArgument(d.Above(content), other.Name())
  {
    hide Split, Tidy, Argument, LastArgument, Directive.Target;
    WriteReplacesLines(d, content, value);
    var line := d.Name() + " " + value + d.Rest(content);
    assert line[..|d.Name()|] == d.Name() && line[..|d.Name()|] <= line;
    ForeignLine(line, d, other);
    LastOfThree(d.Above(content), line, d.Below(content), other.Name());
    LastOfLines(d.Above(content), d.Replaced(content), d.Below(content), other.Name());
  }

  lemma LastOfCons(line: string, lines: seq<string>, name: string)
    ensures LastArgument([line] + lines, name).None? <==> LastArgument(lines, name).None? && Argument(line, name).None?
  {
    assert ([line] + lines)[1..] == lines;
  }

  lemma BlankInFront(c: char, line: string, name: string)
    requires IsSpace(c)
    ensures Argument([c] + line, name) == Argument(line, name)
  {
    assert ([c] + line)[1..] == line;
    assert ([c] + line)[SpaceSpan(line) + 1..] == line[SpaceSpan(line)..];
  }

  lemma NumberIsNoDirective(v: string, rest: string, name: string)
    requires v != "" && IsDigit(v[0]) && name != "" && !IsDigit(name[0])
    ensures Argument(v + rest, name).None?
  {
    var line := v + rest;
    TrimEndPrefix(line);
    assert SpaceSpan(line) == 0 && line[0..] == line;
    var t := Trim(line);
    assert t != "" ==> t[0] == v[0];
  }

  /** Blanks, however many lines they run over, and a number hold no directive. */
  lemma {:induction false} BlanksAndNumber(gap: string, v: string, rest: string, name: string)
    requires AllSpace(gap) && v != "" && '\n' !in v && IsDigit(v[0]) && name != "" && !IsDigit(name[0])
    ensures LastArgument(Glue(Split(gap + v), [rest]), name).None?
  {
    hide Argument, Glue, IsSpace;
    if gap == "" {
      assert gap + v == v;
      SplitOneLine(v);
      GlueOne(v, rest);
      NumberIsNoDirective(v, rest, name);
      LastOfCons(v + rest, [], name);
      NoArgument(name);
      assert [v + rest] + [] == [v + rest];
    } else {
      BlanksAndNumber(gap[1..], v, rest, name);
      assert (gap + v)[1..] == gap[1..] + v && (gap + v)[0] == gap[0];
      var ls := Split(gap[1..] + v);
      var g := Glue(ls, [rest]);
      assert g == [g[0]] + g[1..];
      LastOfCons(g[0], g[1..], name);
      if gap[0] == '\n' {
        GlueBelow("", ls, [rest]);
        EmptyIsNoDirective(name);
        LastOfCons("", g, name);
      } else {
        GlueBeside(gap[0], ls, [rest]);
        BlankInFront(gap[0], g[0], name);
        LastOfCons([gap[0]] + g[0], g[1..], name);
      }
    }
  }

  lemma EmptyIsNoDirective(name: string)
    ensures Argument("", name).None?
  {
  }

  lemma NoArgument(name: string)
    ensures LastArgument([], name).None?
  {
  }

  /** A match of the port: the name, at least one blank, at least one digit. */
  lemma PortMatchSpans(s: string, prefix: string)
    ensures Port.MatchHere(s, prefix) ==
      if !StartsWith(s, prefix) then None
      else
        var tail := s[|prefix|..];
        var gap := SpaceSpan(tail);
        var digits := DigitSpan(tail[gap..]);
        if gap == 0 || digits == 0 then None else Some(|prefix| + gap + digits)
  {
    hide IsSpace, DigitSpan, SpaceSpan;
    if StartsWith(s, prefix) {
      var tail := s[|prefix|..];
      assert s[|prefix| + SpaceSpan(tail)..] == tail[SpaceSpan(tail)..];
    }
  }

  /** What stands between the name and the value of a matched port. */
  lemma PortMatchParts(m: string, prefix: string) returns (gap: string, v: string)
    requires Port.MatchHere(m, prefix) == Some(|m|)
    ensures m == prefix + (gap + v) && AllSpace(gap) && v != "" && '\n' !in v && IsDigit(v[0])
  {
    hide IsSpace, Directive.MatchHere;
    PortMatchSpans(m, prefix);
    var tail := m[|prefix|..];
    var n := SpaceSpan(tail);
    gap, v := tail[..n], tail[n..];
    assert tail == gap + v && m == prefix + tail && v[..|v|] == v;
    assert forall c | c in v :: IsDigit(c);
  }

  lemma {:induction false} SpanOfBlanks(gap: string, rest: string)
    requires AllSpace(gap) && (rest == "" || !IsSpace(rest[0]))
    ensures SpaceSpan(gap + rest) == |gap|
  {
    if gap == "" {
      assert gap + rest == rest;
    } else {
      SpanOfBlanks(gap[1..], rest);
      assert (gap + rest)[1..] == gap[1..] + rest;
    }
  }

  lemma MatchOfParts(prefix: string, gap: string, v: string)
    requires gap != "" && AllSpace(gap) && v != "" && AllDigits(v)
    ensures Port.MatchHere(prefix + (gap + v), prefix) == Some(|prefix + (gap + v)|)
  {
    hide IsSpace, Directive.MatchHere, StartsWith, AllSpace, AllDigits, SpaceSpan, DigitSpan;
    PortMatchSpans(prefix + (gap + v), prefix);
    PartsOf(prefix, gap + v);
    PartsOf(gap, v);
    FirstDigit(v);
    DigitIsNoSpace(v[0]);
    SpanOfBlanks(gap, v);
    SpanOfDigits(v, "");
    assert v + "" == v;
  }

  lemma PartsOf(a: string, b: string)
    ensures StartsWith(a + b, a) && (a + b)[|a|..] == b
  {
    assert (a + b)[..|a|] == a && (a + b)[..|a|] <= a + b;
  }

  lemma FirstDigit(v: string)
    requires v != "" && AllDigits(v)
    ensures IsDigit(v[0])
  {
  }

  lemma DigitIsNoSpace(c: char)
    ensures IsDigit(c) ==> !IsSpace(c)
  {
  }

  /** Matching depends on the matched text only. */
  lemma MatchOfItself(s: string, prefix: string)
    requires Port.MatchHere(s, prefix).Some?
    ensures var n := Port.MatchHere(s, prefix).value; Port.MatchHere(s[..n], prefix) == Some(n)
  {
    hide IsSpace, Directive.MatchHere, SpaceSpan, DigitSpan, AllSpace, AllDigits;
    PortMatchSpans(s, prefix);
    var tail := s[|prefix|..];
    var gap, rest := tail[..SpaceSpan(tail)], tail[SpaceSpan(tail)..];
    var v := rest[..DigitSpan(rest)];
    assert s[..|prefix|] == prefix;
    assert s[..|prefix| + |gap| + |v|] == prefix + (gap + v);
    MatchOfParts(prefix, gap, v);
  }

  /** A write of the port never swallows the root login. */
  lemma PortSwallowsNothing(content: string)
    requires Tidy(content)
    ensures !Swallows(Port, content, PermitRootLogin)
  {
    hide Split, Glue, Tidy, Argument, LastArgument, Directive.Match, Directive.MatchHere;
    if Port.Target(content).None? {
      NoArgument("PermitRootLogin");
    } else {
      var prefix := if Port.Match(content, "Port").Some? then "Port" else "#" + "Port";
      var pre, m, post := MatchParts(Port, content, prefix);
      var (start, end) := Port.Target(content).value;
      assert content[start..end] == m;
      ReplacedByPort(content, prefix, start, end);
      PortLinesHoldNothing(m, prefix, Port.Rest(content));
    }
  }

  lemma ReplacedByPort(content: string, prefix: string, start: nat, end: nat)
    requires Port.Match(content, prefix) == Some((start, end)) && start <= end <= |content|
    ensures Port.MatchHere(content[start..end], prefix) == Some(end - start)
  {
    hide Directive.Find, Directive.MatchHere;
    MatchOfItself(content[start..], prefix);
    assert content[start..][..end - start] == content[start..end];
  }

  lemma PortLinesHoldNothing(m: string, prefix: string, rest: string)
    requires prefix in ["Port", "#" + "Port"] && Port.MatchHere(m, prefix) == Some(|m|)
    ensures LastArgument(Glue(Split(m), [rest]), "PermitRootLogin").None?
  {
    hide Split, Glue, Argument, LastArgument, Directive.MatchHere;
    var gap, v := PortMatchParts(m, prefix);
    BlanksAndNumber(gap, v, rest, "PermitRootLogin");
    Names(Port, prefix);
    SplitOneLine(prefix);
    SplitConcat(prefix, gap + v);
    var lines := Split(gap + v);
    var g := Glue(lines, [rest]);
    GlueFirst(prefix, lines, rest);
    assert g == [g[0]] + g[1..];
    LastOfCons(g[0], g[1..], "PermitRootLogin");
    assert (prefix + g[0])[..|prefix|] == prefix && (prefix + g[0])[..|prefix|] <= prefix + g[0];
    PrefixBegins(prefix + g[0], prefix, Port);
    ForeignLine(prefix + g[0], Port, PermitRootLogin);
    LastOfCons(prefix + g[0], g[1..], "PermitRootLogin");
  }

  lemma GlueFirst(prefix: string, lines: seq<string>, rest: string)
    requires lines != []
    ensures var g := Glue(lines, [rest]);
      Glue(Glue([prefix], lines), [rest]) == [prefix + g[0]] + g[1..]
  {
    var z := Glue([prefix], lines);
    assert z == [prefix + lines[0]] + lines[1..];
    if |lines| == 1 {
      assert prefix + lines[0] + rest == prefix + (lines[0] + rest);
    } else {
      assert z[..|z| - 1] == [prefix + lines[0]] + lines[1..|lines| - 1];
    }
  }

  lemma WriteKeepsTidy(d: Directive, content: string, value: string)
    requires Tidy(content) && IsValue(d, value)
    ensures Tidy(d.Write(content, value))
  {
    hide Split, Directive.Target;
    var replaced := d.Replaced(content);
    WriteReplacesLines(d, content, value);
    ValueIsWord(d, value);
    var was := if replaced != [] then replaced[|replaced| - 1] else "x";
    assert replaced != [] ==> was in Split(content);
    WrittenLineIsTidy(d, value, d.Rest(content), was);
  }

  lemma WrittenLineIsTidy(d: Directive, value: string, rest: string, was: string)
    requires IsWord(value) && TidyLine(was) && (rest == "" || IsTail(was, rest))
    ensures TidyLine(d.Name() + " " + value + rest)
  {
    var head := d.Name() + " " + value;
    var line := head + rest;
    forall i | 0 <= i < |line| && IsTerminator(line[i]) ensures line[i] == '\r' && i == |line| - 1 {
      if i >= |head| {
        assert line[i] == was[|was| - |line| + i];
      }
    }
  }

  /**
   Reading back: after a successful update of a tidy file the reader returns the
   root login exactly when no active directive below the written one says
   otherwise; and the port likewise, unless the second write swallows it: then
   exactly when the lines above that write give the port.
   */
  lemma UpdateReadsBackExactlyWhen(content: string, port: nat, permitRootLogin: bool)
    requires Tidy(content)
    ensures var middle := Port.Write(content, Show(port));
      var after := ReadSpec(UpdateSpec(content, port, permitRootLogin));
      && (after.permitRootLogin == permitRootLogin <==>
        Agrees(PermitRootLogin, PermitRootLogin.Below(middle), YesNo(permitRootLogin)))
      && (after.port == Some(port) <==>
        if Swallows(PermitRootLogin, middle, Port)
        then PortOf(LastArgument(PermitRootLogin.Above(middle), "Port")) == Some(port)
        else Agrees(Port, Port.Below(content), Show(port)))
  {
    hide Split, Tidy, LastArgument, Directive.Target, Agrees;
    var middle := Port.Write(content, Show(port));
    PortReads(port, "");
    assert Show(port) + "" == Show(port);
    WriteReads(Port, content, Show(port));
    WriteKeepsTidy(Port, content, Show(port));
    WriteReads(PermitRootLogin, middle, YesNo(permitRootLogin));
    WriteKeepsOtherExactlyWhen(PermitRootLogin, middle, YesNo(permitRootLogin), Port);
  }

  // ----------------------------------------------------- two failing inputs

  predicate OneLine(s: string) {
    forall i | 0 <= i < |s| :: !IsTerminator(s[i])
  }

  lemma OneLineSplits(s: string)
    requires OneLine(s)
    ensures Split(s) == [s]
  {
    SplitOneLine(s);
  }

  lemma ShownIsOneLine(n: nat)
    ensures OneLine(Show(n))
  {
  }

  lemma {:induction false} NoMatchWithin(d: Directive, s: string, prefix: string)
    requires OneLine(s)
    ensures d.Find(s, prefix, false).None?
  {
    if s != "" {
      NoMatchWithin(d, s[1..], prefix);
    }
  }

  /** In a text of two lines a directive that begins neither has no match. */
  lemma {:induction false} NoMatchInTwo(d: Directive, a: string, b: string, prefix: string, atStart: bool)
    requires OneLine(a) && OneLine(b) && !StartsWith(b, prefix) && prefix != ""
    requires atStart ==> !StartsWith(a + ("\n" + b), prefix)
    ensures d.Find(a + ("\n" + b), prefix, atStart).None?
  {
    hide Directive.MatchHere, StartsWith;
    var s := a + ("\n" + b);
    if a == "" {
      assert s[1..] == b && s[0] == '\n';
      if b != "" {
        NoMatchWithin(d, b[1..], prefix);
      }
    } else {
      assert s[1..] == a[1..] + ("\n" + b) && s[0] == a[0];
      NoMatchInTwo(d, a[1..], b, prefix, false);
    }
  }

  lemma IndentedArgument(n: nat)
    ensures Argument(" Port " + Show(n), "Port") == Some(Show(n))
  {
    var line := "Port" + " " + Show(n);
    assert " Port " + Show(n) == " " + line && (" " + line)[1..] == line;
    assert SpaceSpan(line) == 0 && SpaceSpan(" " + line) == 1 && line[0..] == line;
    assert Trim(" " + line) == Trim(line);
    ArgumentOfWritten(Port, Show(n), "");
    assert line + "" == line && Show(n) + "" == Show(n);
  }

  lemma IndentedIsTidy(was: nat)
    ensures OneLine(" Port " + Show(was)) && Split(" Port " + Show(was)) == [" Port " + Show(was)]
    ensures Tidy(" Port " + Show(was))
  {
    hide Split, Show;
    var content := " Port " + Show(was);
    ShownIsOneLine(was);
    OneLineParts(" Port ", Show(was));
    OneLineSplits(content);
  }

  lemma OneLineParts(a: string, b: string)
    requires OneLine(a) && OneLine(b)
    ensures OneLine(a + b)
  {
  }

  /** In a text whose two lines begin with other characters the directive has no target. */
  lemma NoTargetInTwo(d: Directive, a: string, b: string)
    requires OneLine(a) && OneLine(b) && !StartsWith(a + ("\n" + b), d.Name()) && !StartsWith(b, d.Name())
    requires !StartsWith(a + ("\n" + b), "#" + d.Name()) && !StartsWith(b, "#" + d.Name())
    ensures d.Target(a + ("\n" + b)).None?
  {
    hide OneLine, Directive.Find, Directive.MatchHere;
    NoMatchInTwo(d, a, b, d.Name(), true);
    NoMatchInTwo(d, a, b, "#" + d.Name(), true);
  }

  lemma IndentedIsTarget(was: nat, port: nat)
    ensures Port.Target(" Port " + Show(was)).None?
    ensures PermitRootLogin.Target("Port " + Show(port) + ("\n" + (" Port " + Show(was)))).None?
  {
    hide OneLine, Show, Directive.Target;
    var content, first := " Port " + Show(was), "Port " + Show(port);
    IndentedIsTidy(was);
    assert content[0] == ' ' && content != "";
    IndentedIsUnseen(content, "Port");
    IndentedIsUnseen(content, "#Port");
    NoTargetOfPort(content);
    ShownIsOneLine(port);
    PortIsOneLine();
    OneLineParts("Port ", Show(port));
    var middle := first + ("\n" + content);
    assert middle[1] == 'o' && middle[0] == 'P';
    NoTargetInTwo(PermitRootLogin, first, content);
  }

  lemma PortIsOneLine()
    ensures OneLine("Port ")
  {
  }

  lemma NoTargetOfPort(content: string)
    requires Port.Match(content, "Port").None? && Port.Match(content, "#Port").None?
    ensures Port.Target(content).None?
  {
    assert "#" + Port.Name() == "#Port";
  }

  lemma IndentedIsWritten(was: nat, port: nat)
    requires Port.Target(" Port " + Show(was)).None?
    ensures Port.Write(" Port " + Show(was), Show(port)) == "Port " + Show(port) + ("\n" + (" Port " + Show(was)))
  {
    hide Show, Directive.Target;
    var content := " Port " + Show(was);
    assert "Port" + " " + Show(port) + "\n" + content == "Port " + Show(port) + ("\n" + content);
  }

  /** To the writer an indented line is no directive. */
  lemma IndentedIsUnseen(content: string, prefix: string)
    requires OneLine(content) && content != "" && prefix != "" && prefix[0] != content[0]
    ensures Port.Match(content, prefix).None?
  {
    NoMatchWithin(Port, content[1..], prefix);
  }

  lemma IndentedIsRead(was: nat, port: nat)
    ensures Agrees(Port, [" Port " + Show(was)], Show(port)) ==> was == port
  {
    IndentedArgument(was);
    PortReads(was, "");
    PortReads(port, "");
    assert Show(was) + "" == Show(was) && Show(port) + "" == Show(port);
    LastOfMore([], " Port " + Show(was), "Port");
    assert [] + [" Port " + Show(was)] == [" Port " + Show(was)];
  }

  /** An indented `Port` line: the writer does not see it, puts its own line on top, and the old one wins. */
  lemma IndentedPortWins(was: nat, port: nat, permitRootLogin: bool)
    requires was != port
    ensures ReadSpec(UpdateSpec(" Port " + Show(was), port, permitRootLogin)).port != Some(port)
  {
    hide Split, Tidy, Show, Directive.Target, Directive.Write, ReadSpec, UpdateSpec, Agrees;
    IndentedIsTidy(was);
    IndentedIsTarget(was, port);
    IndentedIsWritten(was, port);
    IndentedIsRead(was, port);
    UpdateReadsBackExactlyWhen(" Port " + Show(was), port, permitRootLogin);
  }

  lemma FindOfCons(d: Directive, c: char, s: string, prefix: string, atStart: bool)
    requires atStart ==> d.MatchHere([c] + s, prefix).None?
    ensures d.Find([c] + s, prefix, atStart) ==
      match d.Find(s, prefix, IsTerminator(c)) case None => None case Some(i) => Some(i + 1)
  {
    hide Directive.MatchHere, IsTerminator;
    assert ([c] + s)[1..] == s;
  }

  lemma FoundAtOnce(d: Directive, s: string, prefix: string)
    requires d.MatchHere(s, prefix).Some?
    ensures d.Find(s, prefix, true) == Some(0)
  {
  }

  lemma {:induction false} FoundInSecond(d: Directive, a: string, b: string, prefix: string, atStart: bool)
    requires OneLine(a) && d.MatchHere(b, prefix).Some?
    requires prefix != "" && prefix[0] != '\n' && (atStart ==> d.MatchHere(a + ("\n" + b), prefix).None?)
    ensures d.Find(a + ("\n" + b), prefix, atStart) == Some(|a| + 1)
  {
    hide Directive.MatchHere, Directive.Find;
    if a == "" {
      assert a + ("\n" + b) == ['\n'] + b;
      FoundAtOnce(d, b, prefix);
      FindOfCons(d, '\n', b, prefix, atStart);
    } else {
      assert a + ("\n" + b) == [a[0]] + (a[1..] + ("\n" + b));
      FindOfCons(d, a[0], a[1..] + ("\n" + b), prefix, atStart);
      FoundInSecond(d, a[1..], b, prefix, false);
    }
  }

  /** A bare commented directive above the only `Port` line. */
  function BareAbovePort(port: nat): string {
    "#PermitRootLogin" + ("\n" + ("Port " + Show(port)))
  }

  lemma PortLineMatches(port: nat)
    ensures Port.MatchHere("Port " + Show(port), "Port") == Some(|"Port " + Show(port)|)
  {
    MatchOfParts("Port", " ", Show(port));
    assert "Port" + (" " + Show(port)) == "Port " + Show(port);
  }

  lemma WrittenAt(d: Directive, pre: string, m: string, post: string, value: string)
    requires d.Target(pre + m + post) == Some((|pre|, |pre| + |m|))
    ensures d.Write(pre + m + post, value) == pre + (d.Name() + " " + value) + post
  {
    hide Directive.Target, Directive.Name;
    var content := pre + m + post;
    assert content[..|pre|] == pre && content[|pre| + |m|..] == post;
  }

  lemma TargetToEnd(d: Directive, content: string, start: nat)
    requires d.Find(content, d.Name(), true) == Some(start) && start <= |content|
    requires d.MatchHere(content[start..], d.Name()) == Some(|content| - start)
    ensures d.Target(content) == Some((start, |content|))
  {
    hide Directive.Find, Directive.MatchHere;
  }

  /** A directive at the end of the text: what stands before it stays. */
  lemma EndIsWritten(d: Directive, pre: string, b: string, value: string)
    requires d.Find(pre + b, d.Name(), true) == Some(|pre|) && d.MatchHere(b, d.Name()) == Some(|b|)
    ensures d.Write(pre + b, value) == pre + (d.Name() + " " + value)
  {
    hide Directive.Find, Directive.MatchHere, Directive.Target, Directive.Name;
    var content := pre + b;
    assert content[|pre|..] == b && content[..|pre|] == pre;
    TargetToEnd(d, content, |pre|);
    assert content[|content|..] == "";
  }

  lemma PortIsWritten(was: nat, port: nat)
    ensures Port.Write(BareAbovePort(was), Show(port)) == BareAbovePort(port)
  {
    hide Show, Directive.MatchHere, Directive.Find, Directive.Write;
    var a, b := "#PermitRootLogin", "Port " + Show(was);
    PortLineMatches(was);
    assert BareAbovePort(was)[0] == '#';
    NoHereWithout(BareAbovePort(was), "Port");
    FoundInSecond(Port, a, b, "Port", true);
    assert a + ("\n" + b) == a + "\n" + b;
    EndIsWritten(Port, a + "\n", b, Show(port));
    assert a + "\n" + ("Port" + " " + Show(port)) == BareAbovePort(port);
  }

  lemma NoHereWithout(content: string, prefix: string)
    requires !StartsWith(content, prefix)
    ensures Port.MatchHere(content, prefix).None?
  {
  }

  /** A commented directive at the start of the text: what its match leaves behind stays. */
  lemma CommentIsWritten(d: Directive, m: string, rest: string, value: string)
    requires d.Match(m + rest, d.Name()).None? && d.MatchHere(m + rest, "#" + d.Name()) == Some(|m|)
    ensures d.Write(m + rest, value) == d.Name() + " " + value + rest
  {
    hide Directive.MatchHere, Directive.Write;
    assert (m + rest)[0..] == m + rest && "" + m + rest == m + rest;
    WrittenAt(d, "", m, rest, value);
    assert "" + (d.Name() + " " + value) + rest == d.Name() + " " + value + rest;
  }

  lemma BareSwallows(port: nat, value: string)
    ensures PermitRootLogin.Write(BareAbovePort(port), value) == "PermitRootLogin" + " " + value + (" " + Show(port))
  {
    hide Show, OneLine, Directive.Write, Directive.Find, Directive.MatchHere;
    var name, b, rest := "#PermitRootLogin", "Port " + Show(port), " " + Show(port);
    var m := name + ("\n" + "Port");
    BareIsOneLine();
    ShownIsOneLine(port);
    OneLineParts("Port ", Show(port));
    assert BareAbovePort(port)[0] == '#' && b[1] == 'o';
    NoMatchInTwo(PermitRootLogin, name, b, "PermitRootLogin", true);
    BlankRunsOver(name, "Port", rest);
    assert "Port" + rest == b;
    assert BareAbovePort(port) == m + rest;
    assert "#" + "PermitRootLogin" == name;
    CommentIsWritten(PermitRootLogin, m, rest, value);
  }

  lemma BareIsOneLine()
    ensures OneLine("#PermitRootLogin") && OneLine("Port ")
  {
  }

  /** The blanks behind a bare directive run over the end of its line, to the first word of the next one. */
  lemma BlankRunsOver(prefix: string, word: string, rest: string)
    requires IsWord(word) && (rest == "" || IsSpace(rest[0]))
    ensures PermitRootLogin.MatchHere(prefix + ("\n" + (word + rest)), prefix) == Some(|prefix| + 1 + |word|)
  {
    var line := word + rest;
    var content := prefix + ("\n" + line);
    assert content[|prefix|..] == "\n" + line && ("\n" + line)[1..] == line && content[|prefix| + 1..] == line;
    assert content[..|prefix|] == prefix && content[..|prefix|] <= content;
    assert line[0] == word[0] && SpaceSpan(line) == 0 && SpaceSpan("\n" + line) == 1;
    WordSpanOf(word, rest);
  }

  /**
   The failing input of the port: one active, well-formed `Port` line at the start
   of its line, below a directive without a value.  The update reads the line as
   that directive's value, and the port falls back to the default.
   */
  lemma BareDirectiveSwallowsPort(was: nat, port: nat, permitRootLogin: bool)
    ensures ReadSpec(BareAbovePort(was)).port == Some(was)
    ensures ReadSpec(UpdateSpec(BareAbovePort(was), port, permitRootLogin)).port == Some(22)
  {
    hide Split, LastArgument, Directive.Write, ReadInt, Show, BareAbovePort, YesNo;
    PortIsWritten(was, port);
    BareSwallows(port, YesNo(permitRootLogin));
    YesNoIsOneLine(permitRootLogin);
    SwallowedReads(port, YesNo(permitRootLogin));
    BareAbovePortReads(was);
  }

  lemma YesNoIsOneLine(b: bool)
    ensures OneLine(YesNo(b))
  {
  }

  lemma SwallowedReads(port: nat, value: string)
    requires OneLine(value)
    ensures LastArgument(Split("PermitRootLogin" + " " + value + (" " + Show(port))), "Port").None?
  {
    hide Split, Argument, LastArgument, Show;
    var name := "PermitRootLogin";
    var after := name + " " + value + (" " + Show(port));
    ShownIsOneLine(port);
    OneLineSplits(after);
    assert after[..|name|] == name && after[..|name|] <= after;
    ForeignLine(after, PermitRootLogin, Port);
    LastOfMore([], after, "Port");
    NoArgument("Port");
    assert [] + [after] == [after];
  }

  lemma BareAbovePortReads(was: nat)
    ensures LastArgument(Split(BareAbovePort(was)), "Port") == Some(Show(was)) && ReadInt(Show(was)) == Some(was)
  {
    hide Split, Argument, LastArgument;
    var b := "Port" + " " + Show(was);
    ShownIsOneLine(was);
    assert OneLine("Port ") && b == "Port " + Show(was) && OneLine(b);
    FirstLineOf("#PermitRootLogin", b);
    OneLineSplits(b);
    LastOfMore(["#PermitRootLogin"], b, "Port");
    ArgumentOfWritten(Port, Show(was), "");
    assert b + "" == b && Show(was) + "" == Show(was) && TrimEnd("") == "";
    PortReads(was, "");
  }

  /** The reader takes a sign in front of the number. */
  lemma SignedNumber(n: nat)
    ensures ReadInt(Show(n)) == Some(n as int) && ReadInt("+" + Show(n)) == Some(n as int)
    ensures ReadInt("-" + Show(n)) == Some(-(n as int))
  {
    hide Show, ParseInt, AllDigits;
    ParseIntOfShow(n, "");
    FirstDigit(Show(n));
    assert Show(n) + "" == Show(n);
    assert ("+" + Show(n))[1..] == Show(n) && ("-" + Show(n))[1..] == Show(n);
  }
}
