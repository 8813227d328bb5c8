/** The fail2ban jail file: a template with two numbers, read back by two regular expressions. */
module Fail2Ban {
  import opened Options
  import opened Text

  /** A line `name = n` and the text behind it. */
  function Setting(name: string, n: nat, rest: string): string {
    name + (" = " + (Show(n) + rest))
  }

  const FIND_TIME := "m\nfindtime = 10m\n"
  const SSHD := "\n\n" + "[sshd]\nenabled = true\nport = ssh\nfilter = sshd\nlogpath = /var/log/auth.log\n"

  /** The jail.local the service writes. */
  function Template(maxretry: nat, banMinutes: nat): string {
    "[DEFAULT]\n" + Setting("bantime", banMinutes, FIND_TIME
      + Setting("maxretry", maxretry, SSHD + Setting("maxretry", maxretry, "\n")))
  }

  /** The text from the digits on, if `name\s*=\s*\d+` matches at the start of s. */
  function FieldHere(s: string, name: string): Option<string> {
    if !StartsWith(s, name) then None
    else
      var gap := s[|name|..];
      var sign := gap[SpaceSpan(gap)..];
      if sign == "" || sign[0] != '=' then None
      else
        var value := sign[1..][SpaceSpan(sign[1..])..];
        if DigitSpan(value) == 0 then None else Some(value)
  }

  /** The first match in s. */
  function Field(s: string, name: string): Option<string> {
    if FieldHere(s, name).Some? then FieldHere(s, name) else if s == "" then None else Field(s[1..], name)
  }

  /** `\d+[smhd]?` is a number of seconds; `m` and `h` scale it, `s` and `d` do not. */
  function Seconds(value: string): nat {
    var n := DigitSpan(value);
    var count := Value(value[..n]);
    if n < |value| && value[n] == 'm' then count * 60
    else if n < |value| && value[n] == 'h' then count * 3600
    else count
  }

  function RetryOf(content: string): nat {
    match Field(content, "maxretry") case None => 5 case Some(v) => Value(v[..DigitSpan(v)])
  }

  function BanOf(content: string): nat {
    match Field(content, "bantime") case None => 600 case Some(v) => Seconds(v)
  }

  datatype Status = Status(installed: bool, enabled: bool, maxretry: nat, bantime: nat)

  function StatusSpec(jail: Option<string>, installed: bool): Status {
    if !installed then Status(false, false, 5, 10)
    else if jail.None? then Status(true, false, 5, 10)
    else Status(true, true, RetryOf(jail.value), BanOf(jail.value) / 60)
  }

  class SecurityService {
    /** /etc/fail2ban/jail.local */
    var jail: Option<string>

    method GetFail2BanStatus(installed: bool) returns (s: Status)
      ensures s == StatusSpec(jail, installed)
    {
      if !installed {
        return Status(false, false, 5, 10);
      }
      var maxretry, bantime, enabled := 5, 600, false;
      if jail.Some? {
        enabled := true;
        var retryMatch, banMatch := Field(jail.value, "maxretry"), Field(jail.value, "bantime");
        if retryMatch.Some? {
          maxretry := Value(retryMatch.value[..DigitSpan(retryMatch.value)]);
        }
        if banMatch.Some? {
          bantime := Seconds(banMatch.value);
        }
      }
      s := Status(true, enabled, maxretry, bantime / 60);
    }

    /** `available`: the client is there or could be installed; `restarts`: the daemon takes the change. */
    method ConfigureFail2Ban(enable: bool, maxretry: nat, bantimeMins: nat, available: bool, restarts: bool)
      returns (ok: bool)
      modifies this
      ensures ok <==> (enable ==> available) && restarts
      ensures jail ==
        if !enable then None else if available then Some(Template(maxretry, bantimeMins)) else old(jail)
    {
      if enable {
        if !available {
          return false;
        }
        jail := Some(Template(maxretry, bantimeMins));
      } else {
        jail := None;
      }
      ok := restarts;
    }
  }

  // ------------------------------------------------------------ reading back

  /** The name cannot start in a: its first two characters do not stand side by side there. */
  predicate NoStart(a: string, b: string, name: string) {
    && |name| >= 2
    && forall i | 0 <= i < |a| && a[i] == name[0] && i + 1 < |a + b| :: (a + b)[i + 1] != name[1]
  }

  lemma {:induction false} SkipText(a: string, b: string, name: string)
    requires NoStart(a, b, name)
    ensures Field(a + b, name) == Field(b, name)
  {
    if a == "" {
      assert a + b == b;
    } else {
      var s := a + b;
      assert s[1..] == a[1..] + b;
      forall i | 0 <= i < |a[1..]| && a[1..][i] == name[0] && i + 1 < |a[1..] + b|
        ensures (a[1..] + b)[i + 1] != name[1]
      {
        assert a[i + 1] == name[0] && s[i + 2] == (a[1..] + b)[i + 1];
      }
      SkipText(a[1..], b, name);
      assert s[0] == a[0] && !StartsWith(s, name);
    }
  }

  lemma NumberWritten(n: nat, rest: string)
    requires rest == "" || !IsDigit(rest[0])
    ensures DigitSpan(Show(n) + rest) == |Show(n)| && Value((Show(n) + rest)[..|Show(n)|]) == n
  {
    SpanOfDigits(Show(n), rest);
    assert (Show(n) + rest)[..|Show(n)|] == Show(n);
    ValueOfShow(n);
  }

  lemma OneBlank(s: string)
    requires s != "" && !IsSpace(s[0])
    ensures SpaceSpan(" " + s) == 1 && (" " + s)[1..] == s
  {
    assert (" " + s)[1..] == s;
    assert SpaceSpan(s) == 0;
  }

  lemma FieldWritten(name: string, n: nat, rest: string)
    requires rest == "" || !IsDigit(rest[0])
    ensures FieldHere(Setting(name, n, rest), name) == Some(Show(n) + rest)
  {
    hide Show, DigitSpan;
    var value := Show(n) + rest;
    var s := Setting(name, n, rest);
    assert s[|name|..] == " = " + value && s[..|name|] == name && s[..|name|] <= s;
    assert " = " + value == " " + ("= " + value) && ("= " + value)[1..] == " " + value;
    OneBlank("= " + value);
    assert value[0] in Show(n);
    OneBlank(value);
    NumberWritten(n, rest);
  }

  lemma BanReadsBack(maxretry: nat, banMinutes: nat)
    ensures BanOf(Template(maxretry, banMinutes)) == banMinutes * 60
  {
    var rest := FIND_TIME + Setting("maxretry", maxretry, SSHD + Setting("maxretry", maxretry, "\n"));
    assert rest[0] == 'm';
    SkipText("[DEFAULT]\n", Setting("bantime", banMinutes, rest), "bantime");
    FieldWritten("bantime", banMinutes, rest);
    NumberWritten(banMinutes, rest);
    assert (Show(banMinutes) + rest)[|Show(banMinutes)|] == 'm';
  }

  lemma SkipNumber(n: nat, rest: string)
    ensures Field(Show(n) + rest, "maxretry") == Field(rest, "maxretry")
  {
    forall i | 0 <= i < |Show(n)| ensures Show(n)[i] != 'm' {
      assert Show(n)[i] in Show(n);
    }
    SkipText(Show(n), rest, "maxretry");
  }

  lemma RetryBehindBan(maxretry: nat, banMinutes: nat, rest: string)
    requires rest == "" || !IsDigit(rest[0])
    ensures Field(Show(banMinutes) + (FIND_TIME + Setting("maxretry", maxretry, rest)), "maxretry")
      == Some(Show(maxretry) + rest)
  {
    hide Show, FieldHere;
    var retry := Setting("maxretry", maxretry, rest);
    FieldWritten("maxretry", maxretry, rest);
    assert retry[0] == 'm';
    SkipText(FIND_TIME, retry, "maxretry");
    SkipNumber(banMinutes, FIND_TIME + retry);
  }

  lemma RetryReadsBack(maxretry: nat, banMinutes: nat)
    ensures RetryOf(Template(maxretry, banMinutes)) == maxretry
  {
    var rest := SSHD + Setting("maxretry", maxretry, "\n");
    assert |SSHD| > 0 && SSHD[0] == '\n' && rest[0] == SSHD[0];
    NumberWritten(maxretry, rest);
    RetryBehindBan(maxretry, banMinutes, rest);
    SkipBan(Show(banMinutes) + (FIND_TIME + Setting("maxretry", maxretry, rest)));
  }

  lemma SkipBan(rest: string)
    requires rest != ""
    ensures Field("[DEFAULT]\n" + ("bantime" + (" = " + rest)), "maxretry") == Field(rest, "maxretry")
  {
    var a := "[DEFAULT]\nbantime = ";
    assert "[DEFAULT]\n" + ("bantime" + (" = " + rest)) == a + rest;
    SkipText(a, rest, "maxretry");
  }

  /** Whatever numbers are configured, the status reports exactly them. */
  lemma ConfigurationReadsBack(maxretry: nat, banMinutes: nat)
    ensures StatusSpec(Some(Template(maxretry, banMinutes)), true) == Status(true, true, maxretry, banMinutes)
  {
    BanReadsBack(maxretry, banMinutes);
    RetryReadsBack(maxretry, banMinutes);
  }

  // --------------------------------------------------- files written by hand

  /** The units the reader's expression takes; no unit means seconds. */
  predicate IsUnit(unit: string) {
    unit in ["", "s", "m", "h", "d"]
  }

  /** What fail2ban makes of the number and its unit. */
  function TrueSeconds(n: nat, unit: string): nat {
    if unit == "m" then n * 60 else if unit == "h" then n * 3600 else if unit == "d" then n * 86400 else n
  }

  /** A ban time in a file: blanks around the `=`, a number, a unit, and any text behind it. */
  function BanLine(gap: string, space: string, number: string, unit: string, after: string): string {
    "bantime" + (gap + ("=" + (space + (number + (unit + after)))))
  }

  /** The unit ends where it ends: nothing behind it is taken for a digit or a unit. */
  predicate UnitEnds(unit: string, after: string) {
    unit == "" && after != "" ==> !IsDigit(after[0]) && !IsUnit([after[0]])
  }

  /** No ban time is matched in the text before. */
  predicate Unmatched(before: string, line: string) {
    forall i | 0 <= i < |before| :: FieldHere((before + line)[i..], "bantime").None?
  }

  lemma {:induction false} SkipUnmatched(before: string, line: string)
    requires Unmatched(before, line)
    ensures Field(before + line, "bantime") == Field(line, "bantime")
  {
    hide FieldHere;
    if before == "" {
      assert before + line == line;
    } else {
      var s := before + line;
      assert s[0..] == s && s[1..] == before[1..] + line;
      assert forall i | 0 <= i < |before[1..]| :: s[i + 1..] == (before[1..] + line)[i..];
      SkipUnmatched(before[1..], line);
    }
  }

  lemma {:induction false} SpanOfBlanks(gap: string, rest: string)
    requires AllSpace(gap) && rest != "" && !IsSpace(rest[0])
    ensures SpaceSpan(gap + rest) == |gap| && (gap + rest)[|gap|..] == rest
  {
    hide IsSpace;
    if gap == "" {
      assert gap + rest == rest;
    } else {
      SpanOfBlanks(gap[1..], rest);
      assert (gap + rest)[1..] == gap[1..] + rest;
    }
  }

  lemma BanLineMatches(gap: string, space: string, number: string, unit: string, after: string)
    requires AllSpace(gap) && AllSpace(space) && AllDigits(number) && number != ""
    ensures FieldHere(BanLine(gap, space, number, unit, after), "bantime") == Some(number + (unit + after))
  {
    hide SpaceSpan;
    var value := number + (unit + after);
    var sign := "=" + (space + value);
    var s := BanLine(gap, space, number, unit, after);
    assert s[|"bantime"|..] == gap + sign && s[..|"bantime"|] == "bantime" && s[..|"bantime"|] <= s;
    SpanOfBlanks(gap, sign);
    assert value[0] == number[0] && IsDigit(number[0]) && sign[1..] == space + value;
    SpanOfBlanks(space, value);
  }

  lemma SecondsOfBanLine(number: string, unit: string, after: string)
    requires AllDigits(number) && number != "" && IsUnit(unit) && UnitEnds(unit, after)
    ensures Seconds(number + (unit + after)) == if unit == "d" then Value(number) else TrueSeconds(Value(number), unit)
  {
    var rest := unit + after;
    var value := number + rest;
    assert rest != "" ==> rest[0] == if unit == "" then after[0] else unit[0];
    SpanOfDigits(number, rest);
    assert value[..|number|] == number && (rest != "" ==> value[|number|] == rest[0]);
  }

  /**
   Whatever stands before and behind it in the file, the first ban time is
   reported in its true minutes exactly when its unit is not the day, or it is 0.
   */
  lemma BanTimeIsReportedExactlyWhen(
      before: string, gap: string, space: string, number: string, unit: string, after: string)
    requires AllSpace(gap) && AllSpace(space) && AllDigits(number) && number != ""
    requires IsUnit(unit) && UnitEnds(unit, after)
    requires Unmatched(before, BanLine(gap, space, number, unit, after))
    ensures var file := before + BanLine(gap, space, number, unit, after);
      StatusSpec(Some(file), true).bantime == TrueSeconds(Value(number), unit) / 60
      <==> unit != "d" || Value(number) == 0
  {
    hide Field, FieldHere, Seconds;
    var line := BanLine(gap, space, number, unit, after);
    SkipUnmatched(before, line);
    BanLineMatches(gap, space, number, unit, after);
    FieldIsHere(line);
    SecondsOfBanLine(number, unit, after);
  }

  lemma FieldIsHere(line: string)
    requires FieldHere(line, "bantime").Some?
    ensures Field(line, "bantime") == FieldHere(line, "bantime")
  {
  }

  /** The failing input: a ban time in days is reported as if it were seconds. */
  lemma DaysReadAsSeconds(n: nat)
    ensures StatusSpec(Some("bantime = " + Show(n) + "d"), true).bantime == n / 60
  {
    hide Show, FieldHere;
    FieldWritten("bantime", n, "d");
    assert "bantime = " + Show(n) + "d" == Setting("bantime", n, "d");
    NumberWritten(n, "d");
    assert (Show(n) + "d")[|Show(n)|] == 'd';
    FieldIsHere(Setting("bantime", n, "d"));
  }

  // ----------------------------------------------------------------- defaults

  lemma {:induction false} NoField(s: string, name: string)
    ensures Field(s, name).None? <==> forall i | 0 <= i <= |s| :: FieldHere(s[i..], name).None?
  {
    hide FieldHere;
    assert s[0..] == s;
    if s != "" {
      NoField(s[1..], name);
      forall i | 0 < i <= |s| ensures s[i..] == s[1..][i - 1..] {
      }
      assert forall i | 0 <= i <= |s[1..]| :: s[1..][i..] == s[i + 1..];
    }
  }

  predicate Unset(jail: Option<string>, installed: bool, name: string) {
    !installed || jail.None? || forall i | 0 <= i <= |jail.value| :: FieldHere(jail.value[i..], name).None?
  }

  /** What is reported without a client, without a jail file, and for a number the file does not set. */
  lemma DefaultsAreReported(jail: Option<string>, installed: bool)
    ensures var s := StatusSpec(jail, installed);
      && (s.installed <==> installed) && (s.enabled <==> installed && jail.Some?)
      && (Unset(jail, installed, "maxretry") ==> s.maxretry == 5)
      && (Unset(jail, installed, "bantime") ==> s.bantime == 10)
  {
    if jail.Some? {
      NoField(jail.value, "maxretry");
      NoField(jail.value, "bantime");
    }
  }

  lemma SettingText(name: string, n: nat, rest: string)
    ensures Setting(name, n, rest) == name + " = " + Show(n) + rest
  {
    hide Show;
    assert name + (" = " + (Show(n) + rest)) == name + " = " + Show(n) + rest;
  }

  /** The file an enabling request leaves: the bans of all jails, and the jail of the SSH daemon with its retries. */
  lemma TemplateText(maxretry: nat, banMinutes: nat)
    ensures var defaults := "[DEFAULT]\n" + "bantime" + " = " + Show(banMinutes) + "m\nfindtime = 10m\n";
      var retries := "maxretry" + " = " + Show(maxretry);
      var jail := "[sshd]\nenabled = true\nport = ssh\nfilter = sshd\nlogpath = /var/log/auth.log\n";
      Template(maxretry, banMinutes) == defaults + (retries + ("\n\n" + jail + (retries + "\n")))
  {
    hide Show, Setting;
    SettingText("maxretry", maxretry, "\n");
    SettingText("maxretry", maxretry, SSHD + Setting("maxretry", maxretry, "\n"));
    var rest := Setting("maxretry", maxretry, SSHD + Setting("maxretry", maxretry, "\n"));
    SettingText("bantime", banMinutes, FIND_TIME + rest);
    Joined("[DEFAULT]\n", "bantime" + " = " + Show(banMinutes), FIND_TIME, rest);
    assert "[DEFAULT]\n" + ("bantime" + " = " + Show(banMinutes))
        == "[DEFAULT]\n" + "bantime" + " = " + Show(banMinutes);
  }

  lemma Joined(a: string, b: string, c: string, d: string)
    ensures a + (b + (c + d)) == a + b + c + d
  {
  }
}
