/** The default domain label of a project: four string passes, against "words joined by hyphens". */
module Slug {
  import opened Text

  // --------------------------------------------------------------- the passes

  /** `replace(/-+/g, '-')` */
  function Squeezed(s: string): string {
    if s == "" then ""
    else if s[0] == '-' && |s| > 1 && s[1] == '-' then Squeezed(s[1..])
    else [s[0]] + Squeezed(s[1..])
  }

  /** `replace(/^-|-$/g, '')` */
  function Stripped(s: string): string {
    StrippedEnd(if s != "" && s[0] == '-' then s[1..] else s)
  }

  function StrippedEnd(s: string): string {
    if s != "" && s[|s| - 1] == '-' then s[..|s| - 1] else s
  }

  function SlugOf(name: string): string {
    Stripped(Squeezed(Dashed(Lower(name))))
  }

  // -------------------------------------------------------- the specification

  predicate IsRun(s: string) {
    forall i | 0 <= i < |s| :: IsLetterOrDigit(s[i])
  }

  function RunSpan(s: string): (n: nat)
    ensures n <= |s| && IsRun(s[..n])
    ensures n < |s| ==> !IsLetterOrDigit(s[n])
    ensures s != "" && IsLetterOrDigit(s[0]) ==> n > 0
  {
    if s != "" && IsLetterOrDigit(s[0]) then 1 + RunSpan(s[1..]) else 0
  }

  /** The maximal runs of letters and digits. */
  function Words(s: string): (ws: seq<string>)
    decreases |s|
  {
    if s == "" then []
    else if IsLetterOrDigit(s[0]) then [s[..RunSpan(s)]] + Words(s[RunSpan(s)..])
    else Words(s[1..])
  }

  // ---------------------------------------------------------------- the proof

  function Squashed(s: string): string {
    Squeezed(Dashed(s))
  }

  /** The text from the first letter or digit on. */
  function Skip(s: string): (r: string)
    ensures |r| <= |s| && (r == "" || IsLetterOrDigit(r[0]))
    ensures Words(r) == Words(s)
  {
    if s == "" || IsLetterOrDigit(s[0]) then s else Skip(s[1..])
  }

  predicate EndsApart(s: string) {
    s != "" && !IsLetterOrDigit(s[|s| - 1])
  }

  lemma SquashedLetter(c: char, rest: string)
    requires IsLetterOrDigit(c)
    ensures Squashed([c] + rest) == [c] + Squashed(rest)
  {
    var s := [c] + rest;
    assert s[1..] == rest;
    assert Dashed(s) == [c] + Dashed(rest);
    assert Dashed(s)[1..] == Dashed(rest);
  }

  lemma {:induction false} SquashedRun(run: string, rest: string)
    requires IsRun(run)
    ensures Squashed(run + rest) == run + Squashed(rest)
  {
    hide Squashed;
    if run == "" {
      assert run + rest == rest;
    } else {
      SquashedRun(run[1..], rest);
      SquashedLetter(run[0], run[1..] + rest);
      assert run + rest == [run[0]] + (run[1..] + rest);
      assert [run[0]] + (run[1..] + Squashed(rest)) == run + Squashed(rest);
    }
  }

  lemma {:induction false} SquashedGap(s: string)
    requires s != "" && !IsLetterOrDigit(s[0])
    ensures Squashed(s) == "-" + Squashed(Skip(s))
    ensures Skip(s) == "" ==> EndsApart(s)
    ensures Skip(s) != "" ==> EndsApart(s) == EndsApart(Skip(s))
  {
    var d := Dashed(s);
    assert d[0] == '-' && d[1..] == Dashed(s[1..]);
    if s[1..] != "" && !IsLetterOrDigit(s[1]) {
      SquashedGap(s[1..]);
      assert d[1] == '-';
    } else {
      assert Skip(s) == s[1..];
      assert s[1..] != "" ==> d[1] == s[1] != '-';
    }
  }

  function Hyphen(b: bool): string {
    if b then "-" else ""
  }

  lemma JoinedStep(run: string, ws: seq<string>)
    ensures Join([run] + ws, "-") == if ws == [] then run else run + ("-" + Join(ws, "-"))
  {
    assert ([run] + ws)[1..] == ws;
  }

  lemma {:induction false} RunSpanOf(run: string, rest: string)
    requires IsRun(run) && (rest == "" || !IsLetterOrDigit(rest[0]))
    ensures RunSpan(run + rest) == |run|
  {
    if run == "" {
      assert run + rest == rest;
    } else {
      RunSpanOf(run[1..], rest);
      assert (run + rest)[1..] == run[1..] + rest;
    }
  }

  lemma WordsStep(run: string, rest: string)
    requires IsRun(run) && run != "" && (rest == "" || !IsLetterOrDigit(rest[0]))
    ensures Words(run + rest) == [run] + Words(rest)
  {
    RunSpanOf(run, rest);
    assert (run + rest)[..|run|] == run && (run + rest)[|run|..] == rest;
  }

  /** From a letter or digit on, the squeezed text is the joined words and perhaps a closing hyphen. */
  lemma {:induction false} SquashedWords(s: string)
    requires s == "" || IsLetterOrDigit(s[0])
    ensures Squashed(s) == Join(Words(s), "-") + Hyphen(EndsApart(s))
    ensures s != "" ==> Words(s) != []
    decreases |s|
  {
    if s != "" {
      var run, rest := s[..RunSpan(s)], s[RunSpan(s)..];
      assert s == run + rest;
      if rest != "" {
        SquashedWords(Skip(rest));
      }
      SquashedStep(run, rest);
    }
  }

  lemma SquashedStep(run: string, rest: string)
    requires IsRun(run) && run != "" && (rest == "" || !IsLetterOrDigit(rest[0]))
    requires rest != "" ==> var body := Skip(rest);
      && Squashed(body) == Join(Words(body), "-") + Hyphen(EndsApart(body))
      && (body != "" ==> Words(body) != [])
    ensures Squashed(run + rest) == Join(Words(run + rest), "-") + Hyphen(EndsApart(run + rest))
  {
    hide Squashed, Join, Skip, EndsApart, Words;
    SquashedRun(run, rest);
    WordsStep(run, rest);
    if rest == "" {
      LastRun(run);
      assert run + rest == run;
    } else {
      SquashedGap(rest);
      EndOfBoth(run, rest);
      AfterRun(run, Skip(rest), EndsApart(rest));
    }
  }

  lemma EndOfBoth(run: string, rest: string)
    requires rest != ""
    ensures EndsApart(run + rest) == EndsApart(rest)
  {
  }

  lemma LastRun(run: string)
    requires IsRun(run) && run != ""
    ensures run + Squashed("") == Join([run] + Words(""), "-") + Hyphen(EndsApart(run))
  {
    JoinedStep(run, []);
  }

  lemma AfterRun(run: string, body: string, apart: bool)
    requires Squashed(body) == Join(Words(body), "-") + Hyphen(EndsApart(body))
    requires body == "" ==> apart
    requires body != "" ==> Words(body) != [] && apart == EndsApart(body)
    ensures run + ("-" + Squashed(body)) == Join([run] + Words(body), "-") + Hyphen(apart)
  {
    if body == "" {
      JoinedStep(run, []);
    } else {
      hide Squashed, Words, Join, Hyphen;
      JoinedStep(run, Words(body));
      Regrouped(run, Join(Words(body), "-"), Hyphen(apart));
    }
  }

  lemma Regrouped(run: string, words: string, hyphen: string)
    ensures run + ("-" + (words + hyphen)) == run + ("-" + words) + hyphen
  {
  }

  predicate AreWords(ws: seq<string>) {
    forall w | w in ws :: w != "" && IsRun(w)
  }

  lemma {:induction false} WordsAreWords(s: string)
    ensures AreWords(Words(s))
    decreases |s|
  {
    if s != "" {
      WordsAreWords(if IsLetterOrDigit(s[0]) then s[RunSpan(s)..] else s[1..]);
    }
  }

  /** The shape of section 2.1 of RFC 1123, length aside; and no two hyphens in a row. */
  predicate IsLabel(s: string) {
    && s != "" && IsLetterOrDigit(s[0]) && IsLetterOrDigit(s[|s| - 1])
    && (forall i | 0 <= i < |s| :: IsLetterOrDigit(s[i]) || s[i] == '-')
    && (forall i | 0 < i < |s| :: s[i - 1] == '-' ==> s[i] != '-')
  }

  lemma {:induction false} JoinedIsLabel(ws: seq<string>)
    requires AreWords(ws) && ws != []
    ensures IsLabel(Join(ws, "-"))
  {
    assert ws[0] in ws;
    if |ws| > 1 {
      assert forall w | w in ws[1..] :: w in ws;
      JoinedIsLabel(ws[1..]);
      var tail := Join(ws[1..], "-");
      var s := ws[0] + ("-" + tail);
      assert s == Join(ws, "-");
      forall i | 0 <= i < |s|
        ensures s[i] == if i < |ws[0]| then ws[0][i] else if i == |ws[0]| then '-' else tail[i - |ws[0]| - 1]
      {
      }
    }
  }

  lemma StrippedEndOf(text: string, after: bool)
    requires IsLabel(text)
    ensures StrippedEnd(text + Hyphen(after)) == text
  {
    if after {
      assert (text + "-")[..|text|] == text;
    } else {
      assert text + "" == text;
    }
  }

  lemma StrippedOf(before: bool, text: string, after: bool)
    requires IsLabel(text)
    ensures Stripped(Hyphen(before) + (text + Hyphen(after))) == text
  {
    var t := text + Hyphen(after);
    StrippedEndOf(text, after);
    assert t[0] == text[0];
    if before {
      assert ("-" + t)[0] == '-' && ("-" + t)[1..] == t;
    } else {
      assert "" + t == t;
    }
  }

  /** The passes compute the words of the lower-cased name, joined by single hyphens. */
  lemma SlugIsJoinedWords(name: string)
    ensures SlugOf(name) == Join(Words(Lower(name)), "-")
  {
    var s := Lower(name);
    var body := Skip(s);
    if body != "" {
      SquashedWords(body);
      WordsAreWords(s);
      JoinedIsLabel(Words(s));
    }
    if s != body {
      SquashedGap(s);
    }
    if body == "" {
      assert Squashed(s) == if s == "" then "" else "-";
    } else {
      assert Squashed(s) == Hyphen(s != body) + (Join(Words(s), "-") + Hyphen(EndsApart(body)));
      StrippedOf(s != body, Join(Words(s), "-"), EndsApart(body));
    }
  }

  // -------------------------------------------------------------- idempotence

  lemma {:induction false} LowerOfLabel(s: string)
    requires forall i | 0 <= i < |s| :: IsLetterOrDigit(s[i]) || s[i] == '-'
    ensures Lower(s) == s
  {
    if s != "" {
      LowerOfLabel(s[1..]);
      assert [s[0]] + s[1..] == s;
    }
  }

  lemma {:induction false} WordsOfJoined(ws: seq<string>)
    requires AreWords(ws)
    ensures Words(Join(ws, "-")) == ws
  {
    if ws != [] {
      assert ws[0] in ws && forall w | w in ws[1..] :: w in ws;
      WordsOfJoined(ws[1..]);
      if |ws| == 1 {
        WordsStep(ws[0], "");
        assert ws[0] + "" == ws[0] && [ws[0]] + [] == ws;
      } else {
        var rest := "-" + Join(ws[1..], "-");
        WordsStep(ws[0], rest);
        assert rest[1..] == Join(ws[1..], "-");
      }
    }
  }

  /** The slug of a slug is that slug. */
  lemma SlugIsIdempotent(name: string)
    ensures SlugOf(SlugOf(name)) == SlugOf(name)
  {
    var ws := Words(Lower(name));
    SlugIsJoinedWords(name);
    SlugIsJoinedWords(SlugOf(name));
    WordsAreWords(Lower(name));
    WordsOfJoined(ws);
    if ws != [] {
      JoinedIsLabel(ws);
    }
    LowerOfLabel(SlugOf(name));
  }

  // -------------------------------------------------------------------- shape

  /** A slug is a label, unless the name holds no letter and no digit: then it is empty. */
  lemma SlugIsLabelOrEmpty(name: string)
    ensures if Words(Lower(name)) == [] then SlugOf(name) == "" else IsLabel(SlugOf(name))
  {
    SlugIsJoinedWords(name);
    WordsAreWords(Lower(name));
    if Words(Lower(name)) != [] {
      JoinedIsLabel(Words(Lower(name)));
    }
  }

  /** A letter of either case, a digit, or one of the two foreign characters whose lower case holds such a letter. */
  predicate IsWordChar(c: char) {
    'a' <= c <= 'z' || 'A' <= c <= 'Z' || '0' <= c <= '9' || c == '\U{212A}' || c == '\U{130}'
  }

  lemma {:induction false} WordsExactlyWhen(s: string)
    ensures Words(s) != [] <==> HoldsLetter(s)
  {
    if s != "" {
      WordsExactlyWhen(s[1..]);
      HoldsLetterIn([s[0]], s[1..]);
      assert [s[0]] + s[1..] == s && (IsLetterOrDigit(s[0]) ==> IsLetterOrDigit([s[0]][0]));
    }
  }

  predicate HoldsLetter(s: string) {
    exists i | 0 <= i < |s| :: IsLetterOrDigit(s[i])
  }

  predicate HoldsWordChar(s: string) {
    exists i | 0 <= i < |s| :: IsWordChar(s[i])
  }

  lemma HoldsLetterIn(a: string, b: string)
    ensures HoldsLetter(a + b) <==> HoldsLetter(a) || HoldsLetter(b)
  {
    assert forall i | 0 <= i < |a| :: (a + b)[i] == a[i];
    assert forall i | 0 <= i < |b| :: (a + b)[|a| + i] == b[i];
    if i :| 0 <= i < |a + b| && IsLetterOrDigit((a + b)[i]) {
      assert if i < |a| then a[i] == (a + b)[i] else b[i - |a|] == (a + b)[i];
    }
  }

  lemma HoldsWordCharFirst(s: string)
    requires s != ""
    ensures HoldsWordChar(s) <==> IsWordChar(s[0]) || HoldsWordChar(s[1..])
  {
    assert forall i | 0 <= i < |s[1..]| :: s[1..][i] == s[i + 1];
    if i :| 0 < i < |s| && IsWordChar(s[i]) {
      assert s[1..][i - 1] == s[i];
    }
  }

  lemma {:induction false} LowerHoldsLetter(s: string)
    ensures HoldsLetter(Lower(s)) <==> HoldsWordChar(s)
  {
    if s != "" {
      hide HoldsLetter, HoldsWordChar, IsWordChar, LowerChar;
      LowerHoldsLetter(s[1..]);
      LowerCharHoldsLetter(s[0]);
      HoldsLetterIn(LowerChar(s[0]), Lower(s[1..]));
      HoldsWordCharFirst(s);
    }
  }

  lemma LowerCharHoldsLetter(c: char)
    ensures HoldsLetter(LowerChar(c)) <==> IsWordChar(c)
  {
    if IsWordChar(c) {
      assert IsLetterOrDigit(LowerChar(c)[0]);
    }
  }

  /** The slug is empty exactly when the name holds no letter of either case and no digit. */
  lemma SlugIsEmptyExactlyWhen(name: string)
    ensures SlugOf(name) == "" <==> forall i | 0 <= i < |name| :: !IsWordChar(name[i])
  {
    hide SlugOf, Lower, Words, IsWordChar, HoldsLetter;
    SlugIsLabelOrEmpty(name);
    WordsExactlyWhen(Lower(name));
    LowerHoldsLetter(name);
  }

  /** Upper and lower case give the same slug. */
  lemma {:induction false} SlugIgnoresCase(name: string, other: string)
    requires |name| == |other|
    requires forall i | 0 <= i < |name| :: other[i] == if 'A' <= name[i] <= 'Z' then name[i] - 'A' + 'a' else name[i]
    ensures SlugOf(name) == SlugOf(other)
  {
    SameLower(name, other);
  }

  lemma {:induction false} SameLower(name: string, other: string)
    requires |name| == |other|
    requires forall i | 0 <= i < |name| :: other[i] == if 'A' <= name[i] <= 'Z' then name[i] - 'A' + 'a' else name[i]
    ensures Lower(name) == Lower(other)
  {
    if name != "" {
      SameLower(name[1..], other[1..]);
    }
  }
}
