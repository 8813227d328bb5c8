/**
 The web terminal's command history.  The server's gateway and the browser's hook
 each rebuild the command line from the keyboard chunks: the gateway to log the
 commands, the hook to show the last ten.
 */
module LineEditor {
  import opened Options
  import opened Text

  const ESC := '\U{1B}'
  const DEL := '\U{7F}'

  /** What `replace(/[\u0000-\u001F\u007F-\u009F]/g, '')` takes out. */
  predicate IsControl(c: char) {
    c < ' ' || '\U{7F}' <= c <= '\U{9F}'
  }

  function Printable(s: string): string {
    if s == "" then "" else (if IsControl(s[0]) then "" else [s[0]]) + Printable(s[1..])
  }

  // -------------------------------------------------- one chunk, as specified

  datatype Edit = Edit(buffer: string, submitted: Option<string>)

  /** What a chunk does to the line: the new line, and the command it submits, if any. */
  function EditOf(buffer: string, data: string): Edit {
    if StartsWith(data, [ESC]) then Edit(buffer, None)
    else if '\r' in data then
      var command := Trim(buffer + data[..IndexOf(data, '\r')]);
      Edit("", if command == "" then None else Some(command))
    else if data == [DEL] then Edit(if buffer == "" then "" else buffer[..|buffer| - 1], None)
    else Edit(buffer + Printable(data), None)
  }

  // ------------------------------------------------------------- the browser

  function FirstTen<T>(s: seq<T>): seq<T> {
    if |s| <= 10 then s else s[..10]
  }

  datatype Hook = Hook(buffer: string, recent: seq<string>)
  {
    function OnData(data: string): Hook {
      var edit := EditOf(buffer, data);
      Hook(edit.buffer, if edit.submitted.Some? then FirstTen([edit.submitted.value] + recent) else recent)
    }
  }

  class TerminalSession {
    var commandBuffer: string
    var recentCommands: seq<string>

    function State(): Hook
      reads this
    {
      Hook(commandBuffer, recentCommands)
    }

    /** The handler of a connected terminal. */
    method OnData(data: string)
      modifies this
      ensures State() == old(State()).OnData(data)
    {
      if StartsWith(data, [ESC]) {
        return;
      }
      if '\r' in data {
        commandBuffer := commandBuffer + data[..IndexOf(data, '\r')];
        var cmd := Trim(commandBuffer);
        if cmd != "" {
          recentCommands := FirstTen([cmd] + recentCommands);
        }
        commandBuffer := "";
      } else if data == [DEL] {
        commandBuffer := if commandBuffer == "" then "" else commandBuffer[..|commandBuffer| - 1];
      } else {
        commandBuffer := commandBuffer + Printable(data);
      }
    }
  }

  // -------------------------------------------------------------- the server

  type Client = nat

  datatype Info = Info(containerId: nat, projectId: nat, userId: nat)

  /** A terminal can be written to, a log stream cannot. */
  datatype Session = Terminal | LogStream

  /** A logged command; `client` only says whose keyboard it came from, the row has no such column. */
  datatype Entry = Entry(client: Client, info: Info, command: string)

  datatype Gateway = Gateway(
    sessions: map<Client, Session>, buffers: map<Client, string>, infos: map<Client, Info>, log: seq<Entry>)
  {
    /** The command line of a client: `commandBuffers.get(id) || ''`. */
    function Line(c: Client): string {
      if c in buffers then buffers[c] else ""
    }

    function Cleanup(c: Client): Gateway {
      if c in sessions then this.(sessions := sessions - {c}, buffers := buffers - {c}, infos := infos - {c}) else this
    }

    /** `found`: the container's row, if there is one with a Docker id; `spawned`: the shell starts. */
    function ConnectTerminal(c: Client, found: Option<Info>, spawned: bool): Gateway {
      if found.None? then this
      else
        var g := this.(infos := infos[c := found.value], buffers := buffers[c := ""]).Cleanup(c);
        if spawned then g.(sessions := g.sessions[c := Terminal]) else g
    }

    function ConnectLogs(c: Client, found: bool, started: bool): Gateway {
      if !found then this
      else
        var g := Cleanup(c);
        if started then g.(sessions := g.sessions[c := LogStream]) else g
    }

    function Input(c: Client, data: string): Gateway {
      if !(c in sessions && sessions[c].Terminal?) || StartsWith(data, [ESC]) then this
      else
        var edit := EditOf(Line(c), data);
        this.(buffers := buffers[c := edit.buffer],
          log := if edit.submitted.Some? && c in infos then log + [Entry(c, infos[c], edit.submitted.value)] else log)
    }
  }

  datatype Event =
    | ConnectTerminal(client: Client, found: Option<Info>, spawned: bool)
    | ConnectLogs(client: Client, hasRow: bool, started: bool)
    | Input(client: Client, data: string)
    | Closed(client: Client)

  function Step(g: Gateway, e: Event): Gateway {
    match e
    case ConnectTerminal(c, found, spawned) => g.ConnectTerminal(c, found, spawned)
    case ConnectLogs(c, hasRow, started) => g.ConnectLogs(c, hasRow, started)
    case Input(c, data) => g.Input(c, data)
    case Closed(c) => g.Cleanup(c)
  }

  function Run(g: Gateway, events: seq<Event>): Gateway
    decreases |events|
  {
    if events == [] then g else Run(Step(g, events[0]), events[1..])
  }

  class TerminalGateway {
    var sessions: map<Client, Session>
    var commandBuffers: map<Client, string>
    var containerInfo: map<Client, Info>
    var terminalLog: seq<Entry>

    function State(): Gateway
      reads this
    {
      Gateway(sessions, commandBuffers, containerInfo, terminalLog)
    }

    method CleanupSession(client: Client)
      modifies this
      ensures State() == old(State()).Cleanup(client)
    {
      if client in sessions {
        sessions := sessions - {client};
        commandBuffers := commandBuffers - {client};
        containerInfo := containerInfo - {client};
      }
    }

    method HandleConnectTerminal(client: Client, container: Option<Info>, spawned: bool) returns (ready: bool)
      modifies this
      ensures State() == old(State()).ConnectTerminal(client, container, spawned)
      ensures ready <==> container.Some? && spawned
    {
      if container.None? {
        return false;
      }
      containerInfo := containerInfo[client := container.value];
      commandBuffers := commandBuffers[client := ""];
      CleanupSession(client);
      if !spawned {
        return false;
      }
      sessions := sessions[client := Terminal];
      ready := true;
    }

    method HandleConnectAppLogs(client: Client, found: bool, started: bool) returns (ready: bool)
      modifies this
      ensures State() == old(State()).ConnectLogs(client, found, started)
      ensures ready <==> found && started
    {
      if !found {
        return false;
      }
      CleanupSession(client);
      if !started {
        return false;
      }
      sessions := sessions[client := LogStream];
      ready := true;
    }

    method HandleTerminalInput(client: Client, input: string)
      modifies this
      ensures State() == old(State()).Input(client, input)
    {
      if !(client in sessions && sessions[client].Terminal?) {
        return;
      }
      if StartsWith(input, [ESC]) {
        return;
      }
      var buffer := if client in commandBuffers then commandBuffers[client] else "";
      if '\r' in input {
        var finalCmd := Trim(buffer + input[..IndexOf(input, '\r')]);
        if finalCmd != "" {
          if client in containerInfo {
            terminalLog := terminalLog + [Entry(client, containerInfo[client], finalCmd)];
          }
        }
        commandBuffers := commandBuffers[client := ""];
      } else if input == [DEL] {
        commandBuffers := commandBuffers[client := if buffer == "" then "" else buffer[..|buffer| - 1]];
      } else {
        commandBuffers := commandBuffers[client := buffer + Printable(input)];
      }
    }
  }

  // ------------------------------------------------------------- agreement

  /** A terminal whose commands are logged. */
  predicate Logged(g: Gateway, c: Client) {
    c in g.sessions && g.sessions[c].Terminal? && c in g.infos
  }

  /** The commands of a client, in the order they were logged. */
  function CommandsOf(log: seq<Entry>, c: Client): seq<string> {
    if log == [] then []
    else CommandsOf(log[..|log| - 1], c) + if log[|log| - 1].client == c then [log[|log| - 1].command] else []
  }

  /** The keyboard of one browser: what it types is all the gateway hears of its client. */
  predicate OnlyTypes(events: seq<Event>, c: Client) {
    forall e | e in events && e.client == c :: e.Input?
  }

  function Typed(hook: Hook, events: seq<Event>, c: Client): Hook
    decreases |events|
  {
    if events == [] then hook
    else
      var e := events[0];
      Typed(if e.Input? && e.client == c then hook.OnData(e.data) else hook, events[1..], c)
  }

  /** The last n, newest first. */
  function Newest(s: seq<string>, n: nat): (r: seq<string>)
    ensures |r| == if |s| <= n then |s| else n
  {
    if n == 0 || s == [] then [] else [s[|s| - 1]] + Newest(s[..|s| - 1], n - 1)
  }

  lemma {:induction false} NewestIsPrefix(s: seq<string>, n: nat)
    requires n > 0
    ensures Newest(s, n - 1) == if |s| < n then Newest(s, n) else Newest(s, n)[..n - 1]
  {
    if s != [] && n > 1 {
      NewestIsPrefix(s[..|s| - 1], n - 1);
    }
  }

  predicate InStep(g: Gateway, hook: Hook, c: Client) {
    && Logged(g, c) && g.Line(c) == hook.buffer
    && hook.recent == Newest(CommandsOf(g.log, c), 10)
  }

  lemma OthersDoNotMatter(g: Gateway, e: Event, c: Client)
    requires e.client != c
    ensures Logged(Step(g, e), c) == Logged(g, c) && Step(g, e).Line(c) == g.Line(c)
    ensures CommandsOf(Step(g, e).log, c) == CommandsOf(g.log, c)
  {
    hide EditOf, CommandsOf;
    var after := Step(g, e);
    if after.log != g.log {
      CommandsOfOther(g.log, after.log[|g.log|], c);
    }
  }

  lemma CommandsOfOther(log: seq<Entry>, entry: Entry, c: Client)
    requires entry.client != c
    ensures CommandsOf(log + [entry], c) == CommandsOf(log, c)
  {
    assert (log + [entry])[..|log|] == log;
  }

  lemma CommandsOfMore(log: seq<Entry>, entry: Entry)
    ensures CommandsOf(log + [entry], entry.client) == CommandsOf(log, entry.client) + [entry.command]
  {
    assert (log + [entry])[..|log|] == log;
  }

  lemma NewestOfMore(s: seq<string>, x: string)
    ensures Newest(s + [x], 10) == FirstTen([x] + Newest(s, 10))
  {
    assert (s + [x])[..|s|] == s && (s + [x])[|s|] == x;
    NewestIsPrefix(s, 10);
  }

  lemma TypedInStep(g: Gateway, hook: Hook, data: string, c: Client)
    requires InStep(g, hook, c)
    ensures InStep(g.Input(c, data), hook.OnData(data), c)
  {
    var submitted := EditOf(hook.buffer, data).submitted;
    if !StartsWith(data, [ESC]) && submitted.Some? {
      CommandsOfMore(g.log, Entry(c, g.infos[c], submitted.value));
      NewestOfMore(CommandsOf(g.log, c), submitted.value);
    }
  }

  /**
   The two editors agree: whatever one browser types, in whatever chunks and
   whatever other clients do meanwhile, both lines are equal and the recent
   list is the last ten logged commands, newest first.
   */
  lemma {:induction false} EditorsAgree(g: Gateway, hook: Hook, events: seq<Event>, c: Client)
    requires InStep(g, hook, c) && OnlyTypes(events, c)
    ensures InStep(Run(g, events), Typed(hook, events, c), c)
    decreases |events|
  {
    if events != [] {
      assert events[0] in events && forall e | e in events[1..] :: e in events;
      var e := events[0];
      if e.client == c {
        TypedInStep(g, hook, e.data, c);
        EditorsAgree(Step(g, e), hook.OnData(e.data), events[1..], c);
      } else {
        OthersDoNotMatter(g, e, c);
        EditorsAgree(Step(g, e), hook, events[1..], c);
      }
    }
  }

  lemma FirstConnectionInStepExactlyWhen(g: Gateway, hook: Hook, info: Info, c: Client)
    requires c !in g.sessions && hook.recent == Newest(CommandsOf(g.log, c), 10)
    ensures InStep(g.ConnectTerminal(c, Some(info), true), hook, c) <==> hook.buffer == ""
  {
  }

  /**
   From a first connection on the two editors agree over all typing exactly when
   the hook's line is empty: connecting empties the gateway's line, but nothing
   empties the hook's.
   */
  lemma ConnectedEditorsAgreeExactlyWhen(g: Gateway, hook: Hook, info: Info, c: Client)
    requires c !in g.sessions && hook.recent == Newest(CommandsOf(g.log, c), 10)
    ensures var connected := Step(g, ConnectTerminal(c, Some(info), true));
      (forall events | OnlyTypes(events, c) :: InStep(Run(connected, events), Typed(hook, events, c), c))
          <==> hook.buffer == ""
  {
    var connected := Step(g, ConnectTerminal(c, Some(info), true));
    FirstConnectionInStepExactlyWhen(g, hook, info, c);
    if hook.buffer == "" {
      forall events | OnlyTypes(events, c) ensures InStep(Run(connected, events), Typed(hook, events, c), c) {
        EditorsAgree(connected, hook, events, c);
      }
    } else {
      assert OnlyTypes([], c) && Run(connected, []) == connected && Typed(hook, [], c) == hook;
    }
  }

  // ---------------------------------------------------------------- chunking

  /** A chunk of plain typing: no key that is not a character, no return, not the backspace alone. */
  predicate IsTyping(data: string) {
    !StartsWith(data, [ESC]) && '\r' !in data && data != [DEL]
  }

  function Feed(buffer: string, chunks: seq<string>): string
    decreases |chunks|
  {
    if chunks == [] then buffer else Feed(EditOf(buffer, chunks[0]).buffer, chunks[1..])
  }

  function Concat(chunks: seq<string>): string {
    if chunks == [] then "" else chunks[0] + Concat(chunks[1..])
  }

  lemma PrintableOfCons(c: char, s: string)
    ensures Printable([c] + s) == (if IsControl(c) then "" else [c]) + Printable(s)
  {
    assert ([c] + s)[1..] == s;
  }

  lemma Regrouped(line: string, a: string, b: string)
    ensures line + a + b == line + (a + b)
  {
  }

  lemma {:induction false} PrintableOfConcat(a: string, b: string)
    ensures Printable(a + b) == Printable(a) + Printable(b)
  {
    if a == "" {
      assert a + b == b;
    } else {
      hide Printable, IsControl;
      var c, rest := a[0], a[1..];
      PrintableOfConcat(rest, b);
      PrintableOfCons(c, rest);
      PrintableOfCons(c, rest + b);
      assert a == [c] + rest && a + b == [c] + (rest + b);
      Regrouped(if IsControl(c) then "" else [c], Printable(rest), Printable(b));
    }
  }

  lemma TypingIsAppended(buffer: string, data: string)
    requires IsTyping(data)
    ensures EditOf(buffer, data) == Edit(buffer + Printable(data), None)
  {
  }

  lemma {:induction false} FeedIsOneChunk(buffer: string, chunks: seq<string>)
    requires forall chunk | chunk in chunks :: IsTyping(chunk)
    ensures Feed(buffer, chunks) == buffer + Printable(Concat(chunks))
    decreases |chunks|
  {
    if chunks == [] {
      assert buffer + "" == buffer;
    } else {
      assert chunks[0] in chunks && forall chunk | chunk in chunks[1..] :: chunk in chunks;
      var line := buffer + Printable(chunks[0]);
      TypingIsAppended(buffer, chunks[0]);
      FeedIsOneChunk(line, chunks[1..]);
      PrintableOfConcat(chunks[0], Concat(chunks[1..]));
    }
  }

  /** Typing reaches the line the same however it is cut into chunks. */
  lemma ChunkingDoesNotMatter(buffer: string, a: seq<string>, b: seq<string>)
    requires (forall chunk | chunk in a :: IsTyping(chunk)) && (forall chunk | chunk in b :: IsTyping(chunk))
    requires Concat(a) == Concat(b)
    ensures Feed(buffer, a) == Feed(buffer, b)
  {
    FeedIsOneChunk(buffer, a);
    FeedIsOneChunk(buffer, b);
  }

  function Characters(data: string): seq<string> {
    if data == "" then [] else [[data[0]]] + Characters(data[1..])
  }

  /** Some backspace inside the text would meet a character, of the line or typed before it. */
  predicate Erases(buffer: string, data: string) {
    exists i | 0 <= i < |data| :: data[i] == DEL && buffer + Printable(data[..i]) != ""
  }

  lemma OneKey(buffer: string, c: char)
    requires c != '\r'
    ensures EditOf(buffer, [c]).buffer ==
      if c == DEL && buffer != "" then buffer[..|buffer| - 1] else buffer + Printable([c])
  {
    assert [c][1..] == "";
    assert c == DEL || c == ESC ==> Printable([c]) == "";
    assert buffer + "" == buffer;
  }

  /** One key at a time: a backspace that meets a character makes the line shorter than the chunk's. */
  lemma {:induction false} FeedCharacters(buffer: string, data: string)
    requires '\r' !in data
    ensures var line := Feed(buffer, Characters(data));
      if Erases(buffer, data) then |line| < |buffer + Printable(data)| else line == buffer + Printable(data)
    decreases |data|
  {
    hide EditOf, Erases;
    if data == "" {
      NothingErases(buffer);
      assert buffer + "" == buffer;
    } else {
      var c, rest := data[0], data[1..];
      assert data == [c] + rest;
      OneKey(buffer, c);
      FeedCharacters(EditOf(buffer, [c]).buffer, rest);
      PrintableOfConcat([c], rest);
      if c == DEL && buffer != "" {
        FirstErases(buffer, data);
      } else {
        ErasesLater(buffer, data);
        assert buffer + Printable([c]) + Printable(rest) == buffer + Printable(data);
      }
    }
  }

  lemma NothingErases(buffer: string)
    ensures !Erases(buffer, "")
  {
  }

  lemma FirstErases(buffer: string, data: string)
    requires data != "" && data[0] == DEL && buffer != ""
    ensures Erases(buffer, data)
  {
    assert data[..0] == "";
  }

  lemma ErasesLater(buffer: string, data: string)
    requires data != "" && !(data[0] == DEL && buffer != "")
    ensures Erases(buffer, data) <==> Erases(buffer + Printable([data[0]]), data[1..])
  {
    hide Printable;
    var next, rest := buffer + Printable([data[0]]), data[1..];
    forall i | 0 <= i < |rest|
      ensures rest[i] == data[i + 1] && next + Printable(rest[..i]) == buffer + Printable(data[..i + 1])
    {
      PrintableOfConcat([data[0]], rest[..i]);
      assert data[..i + 1] == [data[0]] + rest[..i];
    }
    if Erases(buffer, data) {
      var i :| 0 <= i < |data| && data[i] == DEL && buffer + Printable(data[..i]) != "";
      PrintableOfNothing();
      assert data[..0] == "";
      assert rest[i - 1] == DEL && next + Printable(rest[..i - 1]) != "";
    }
    if Erases(next, rest) {
      var i :| 0 <= i < |rest| && rest[i] == DEL && next + Printable(rest[..i]) != "";
      assert data[i + 1] == DEL && buffer + Printable(data[..i + 1]) != "";
    }
  }

  lemma PrintableOfNothing()
    ensures Printable("") == ""
  {
  }

  /** A chunk acts like its characters typed one by one exactly when none of them would have erased another. */
  lemma ChunkActsLikeCharactersExactlyWhen(buffer: string, data: string)
    requires IsTyping(data)
    ensures EditOf(buffer, data).buffer == Feed(buffer, Characters(data)) <==> !Erases(buffer, data)
  {
    TypingIsAppended(buffer, data);
    FeedCharacters(buffer, data);
  }

  /** Of a pasted chunk only the text before the first return counts. */
  lemma PastedLinesAreLost(buffer: string, first: string, rest: string)
    requires '\r' !in first && !StartsWith(first + "\r", [ESC])
    ensures EditOf(buffer, first + "\r" + rest) == EditOf(buffer, first + "\r")
  {
    var one, all := first + "\r", first + "\r" + rest;
    IndexOfPrefix(first, '\r', "");
    IndexOfPrefix(first, '\r', rest);
    assert one == first + ['\r'] + "" && all == first + ['\r'] + rest;
    assert one[|first|] == all[|first|] == '\r' && all[0] == one[0];
    assert one[..|first|] == first == all[..|first|];
  }

  // ------------------------------------------------------- what gets submitted

  /** `Printable` keeps the text in order, without the control characters. */
  lemma PrintableOfCharacter(c: char)
    ensures Printable([c]) == if c < ' ' || '\U{7F}' <= c <= '\U{9F}' then "" else [c]
  {
    assert [c][1..] == "" && [c] + "" == [c];
  }

  /** The middle of a text, without the blanks at either end. */
  ghost predicate IsCore(text: string, core: string) {
    && core != "" && !IsSpace(core[0]) && !IsSpace(core[|core| - 1])
    && exists lead, trail :: AllSpace(lead) && AllSpace(trail) && text == lead + core + trail
  }

  lemma {:induction false} TrimEndParts(s: string)
    ensures var core := TrimEnd(s);
      && core <= s && AllSpace(s[|core|..])
      && (core != "" ==> !IsSpace(core[|core| - 1]))
  {
    if s != "" && IsSpace(s[|s| - 1]) {
      TrimEndParts(s[..|s| - 1]);
      var core := TrimEnd(s);
      assert s[|core|..] == s[..|s| - 1][|core|..] + [s[|s| - 1]];
    }
  }

  lemma CoreOf(lead: string, core: string, trail: string)
    requires AllSpace(lead) && AllSpace(trail)
    requires core != "" && !IsSpace(core[0]) && !IsSpace(core[|core| - 1])
    ensures IsCore(lead + core + trail, core)
  {
  }

  lemma BlankIsTrimmed(s: string)
    requires SpaceSpan(s) == |s|
    ensures Trim(s) == "" && AllSpace(s)
  {
    assert s[..|s|] == s && s[|s|..] == "";
  }

  lemma {:induction false} StartStays(s: string)
    requires s != "" && !IsSpace(s[0])
    ensures TrimEnd(s) != "" && TrimEnd(s)[0] == s[0]
  {
    hide IsSpace;
    if IsSpace(s[|s| - 1]) {
      StartStays(s[..|s| - 1]);
    }
  }

  /** A text that does not start with a blank is only trimmed at its end. */
  lemma TrimmedTail(lead: string, tail: string)
    requires AllSpace(lead) && tail != "" && !IsSpace(tail[0])
    ensures IsCore(lead + tail, TrimEnd(tail)) && !AllSpace(lead + tail)
  {
    hide IsSpace, TrimEnd, IsCore;
    var core := TrimEnd(tail);
    TrimEndParts(tail);
    StartStays(tail);
    assert (lead + tail)[|lead|] == tail[0];
    assert tail == core + tail[|core|..];
    CoreOf(lead, core, tail[|core|..]);
    assert lead + core + tail[|core|..] == lead + tail;
  }

  /** `trim` takes the blanks at either end and nothing else. */
  lemma TrimIsCore(s: string)
    ensures if AllSpace(s) then Trim(s) == "" else IsCore(s, Trim(s))
  {
    hide IsSpace, AllSpace, IsCore, SpaceSpan, TrimEnd;
    var n := SpaceSpan(s);
    if n == |s| {
      BlankIsTrimmed(s);
    } else {
      assert s[n..][0] == s[n] && s == s[..n] + s[n..];
      TrimmedTail(s[..n], s[n..]);
    }
  }

  /** All the client types is text and keys that send an escape sequence: no return, and no backspace by itself. */
  predicate OnlyText(events: seq<Event>, c: Client) {
    forall e | e in events && e.client == c :: e.Input? && '\r' !in e.data && e.data != [DEL]
  }

  function Piece(e: Event, c: Client): string {
    if e.Input? && e.client == c && !StartsWith(e.data, [ESC]) then e.data else ""
  }

  /** The text among it. */
  function TextOf(events: seq<Event>, c: Client): string {
    if events == [] then "" else Piece(events[0], c) + TextOf(events[1..], c)
  }

  lemma PieceIsAppended(g: Gateway, e: Event, c: Client)
    requires Logged(g, c) && OnlyText([e], c)
    ensures var after := Step(g, e);
      && Logged(after, c) && after.infos[c] == g.infos[c]
      && after.Line(c) == g.Line(c) + Printable(Piece(e, c))
      && CommandsOf(after.log, c) == CommandsOf(g.log, c)
  {
    assert e in [e];
    assert g.Line(c) + "" == g.Line(c);
    if e.client != c {
      OthersDoNotMatter(g, e, c);
    }
  }

  lemma PieceIsSeen(hook: Hook, e: Event, c: Client)
    requires e.Input? && e.client == c && OnlyText([e], c)
    ensures hook.OnData(e.data) == hook.(buffer := hook.buffer + Printable(Piece(e, c)))
  {
    assert e in [e];
    assert hook.buffer + "" == hook.buffer;
  }

  lemma FirstIsText(events: seq<Event>, c: Client)
    requires OnlyText(events, c) && events != []
    ensures OnlyText([events[0]], c) && OnlyText(events[1..], c)
  {
    assert events[0] in events && forall e | e in events[1..] :: e in events;
  }

  lemma {:induction false} TextIsAppended(g: Gateway, hook: Hook, events: seq<Event>, c: Client)
    requires Logged(g, c) && OnlyText(events, c)
    ensures var after := Run(g, events);
      && Logged(after, c) && after.infos[c] == g.infos[c]
      && after.Line(c) == g.Line(c) + Printable(TextOf(events, c))
      && CommandsOf(after.log, c) == CommandsOf(g.log, c)
    ensures Typed(hook, events, c) == hook.(buffer := hook.buffer + Printable(TextOf(events, c)))
    decreases |events|
  {
    if events == [] {
      assert g.Line(c) + "" == g.Line(c) && hook.buffer + "" == hook.buffer;
    } else {
      hide CommandsOf, Printable, Logged, OnlyText, Piece, Step, Hook.OnData;
      var e, rest := events[0], events[1..];
      FirstIsText(events, c);
      PieceIsAppended(g, e, c);
      var hook' := if e.Input? && e.client == c then hook.OnData(e.data) else hook;
      if e.Input? && e.client == c {
        PieceIsSeen(hook, e, c);
      } else {
        NoPiece(e, c);
        assert hook.buffer + "" == hook.buffer;
      }
      TextIsAppended(Step(g, e), hook', rest, c);
      PrintableOfConcat(Piece(e, c), TextOf(rest, c));
      Regrouped(g.Line(c), Printable(Piece(e, c)), Printable(TextOf(rest, c)));
      Regrouped(hook.buffer, Printable(Piece(e, c)), Printable(TextOf(rest, c)));
    }
  }

  lemma NoPiece(e: Event, c: Client)
    requires !(e.Input? && e.client == c)
    ensures Printable(Piece(e, c)) == ""
  {
  }

  lemma {:induction false} RunOneMore(g: Gateway, hook: Hook, events: seq<Event>, e: Event, c: Client)
    requires e.Input? && e.client == c
    ensures Run(g, events + [e]) == Step(Run(g, events), e)
    ensures Typed(hook, events + [e], c) == Typed(hook, events, c).OnData(e.data)
    decreases |events|
  {
    hide Step, Hook.OnData;
    if events == [] {
      assert [] + [e] == [e] && [e][1..] == [];
    } else {
      var first := events[0];
      RunOneMore(Step(g, first), if first.Input? && first.client == c then hook.OnData(first.data) else hook,
        events[1..], e, c);
      assert (events + [e])[1..] == events[1..] + [e] && (events + [e])[0] == first;
    }
  }

  lemma ReturnChunk(buffer: string, first: string, rest: string)
    requires '\r' !in first && !StartsWith(first + "\r" + rest, [ESC])
    ensures var command := Trim(buffer + first);
      EditOf(buffer, first + "\r" + rest) == Edit("", if command == "" then None else Some(command))
  {
    hide Trim;
    var data := first + "\r" + rest;
    IndexOfPrefix(first, '\r', rest);
    assert data == first + ['\r'] + rest && data[|first|] == '\r' && data[..|first|] == first;
  }

  /**
   A return submits what was typed: the line so far, the printable text typed since
   in whatever chunks, and the rest of the line in the chunk with the return.  The
   middle of that text is logged once, for the client's container, and becomes the
   newest entry of the browser's list; a blank text is neither.  Both lines are
   empty afterwards.  Other clients may do anything meanwhile.
   */
  lemma ReturnSubmitsTheLine(
      g: Gateway, hook: Hook, events: seq<Event>, c: Client, first: string, rest: string)
    requires Logged(g, c) && g.Line(c) == hook.buffer && OnlyText(events, c)
    requires '\r' !in first && !StartsWith(first + "\r" + rest, [ESC])
    ensures var all := events + [Input(c, first + "\r" + rest)];
      var text := g.Line(c) + Printable(TextOf(events, c)) + first;
      var g', hook' := Run(g, all), Typed(hook, all, c);
      && g'.Line(c) == "" && hook'.buffer == ""
      && (AllSpace(text) ==> CommandsOf(g'.log, c) == CommandsOf(g.log, c) && hook'.recent == hook.recent)
      && (!AllSpace(text) ==> exists command | IsCore(text, command) ::
            && g'.log == Run(g, events).log + [Entry(c, g.infos[c], command)]
            && CommandsOf(g'.log, c) == CommandsOf(g.log, c) + [command]
            && hook'.recent == [command] + if |hook.recent| < 10 then hook.recent else hook.recent[..9])
  {
    hide CommandsOf, Printable, IsCore, EditOf, Trim, OnlyText, Run, Typed, AllSpace;
    var data := first + "\r" + rest;
    var text := g.Line(c) + Printable(TextOf(events, c)) + first;
    var before := Run(g, events);
    TextIsAppended(g, hook, events, c);
    RunOneMore(g, hook, events, Input(c, data), c);
    ReturnChunk(before.Line(c), first, rest);
    TrimIsCore(text);
    var command := Trim(text);
    if !AllSpace(text) {
      CoreIsNotEmpty(text, command);
      CommandsOfMore(before.log, Entry(c, g.infos[c], command));
      assert |hook.recent| >= 10 ==> ([command] + hook.recent)[..10] == [command] + hook.recent[..9];
    }
  }

  lemma CoreIsNotEmpty(text: string, core: string)
    requires IsCore(text, core)
    ensures core != ""
  {
  }

  lemma TypedAndErased(line: string, key: char)
    requires Printable([key]) == [key] && key != '\r'
    ensures EditOf(line, [key]) == Edit(line + [key], None) && EditOf(line + [key], [DEL]) == Edit(line, None)
  {
    PrintableOfCharacter(DEL);
    PrintableOfCharacter(ESC);
    assert (line + [key])[..|line|] == line;
  }

  /** A backspace takes back the last character, and nothing else. */
  lemma BackspaceUndoesCharacter(g: Gateway, hook: Hook, c: Client, key: char)
    requires Logged(g, c) && Printable([key]) == [key] && key != '\r'
    ensures var typing := [Input(c, [key]), Input(c, [DEL])];
      var g', hook' := Run(g, typing), Typed(hook, typing, c);
      g'.Line(c) == g.Line(c) && g'.log == g.log && hook' == hook
  {
    hide EditOf, Printable;
    var one, two := Input(c, [key]), Input(c, [DEL]);
    assert [one, two][1..] == [two] && [two][1..] == [];
    TypedAndErased(g.Line(c), key);
    TypedAndErased(hook.buffer, key);
    PrintableOfCharacter(ESC);
    assert Run(g, [one, two]) == Step(Step(g, one), two) by {
      assert Run(Step(g, one), [two]) == Run(Step(Step(g, one), two), []);
    }
    assert Typed(hook, [one, two], c) == hook.OnData([key]).OnData([DEL]) by {
      assert Typed(hook.OnData([key]), [two], c) == Typed(hook.OnData([key]).OnData([DEL]), [], c);
    }
  }

  // -------------------------------------------------------------- reconnecting

  predicate AllLogged(g: Gateway) {
    forall c | c in g.sessions && g.sessions[c].Terminal? :: c in g.infos
  }

  /** A terminal opened on a client that has a session already. */
  predicate Reconnects(g: Gateway, e: Event) {
    e.ConnectTerminal? && e.found.Some? && e.spawned && e.client in g.sessions
  }

  /** Every terminal stays logged, exactly until one is opened over a session: the clean-up takes the new record too. */
  lemma StepKeepsLoggedExactlyWhen(g: Gateway, e: Event)
    requires AllLogged(g)
    ensures AllLogged(Step(g, e)) <==> !Reconnects(g, e)
  {
    var after := Step(g, e);
    if Reconnects(g, e) {
      assert after.sessions[e.client].Terminal? && e.client !in after.infos;
    }
  }

  /** Closing a connection, or turning it to a log stream, forgets its line and its container and nobody else's. */
  lemma LeavingForgets(g: Gateway, e: Event)
    requires e.client in g.sessions && (e.Closed? || (e.ConnectLogs? && e.hasRow))
    ensures var c, after := e.client, Step(g, e);
      && after.Line(c) == "" && c !in after.buffers && c !in after.infos && after.log == g.log
      && (c in after.sessions <==> e.ConnectLogs? && e.started)
      && (c in after.sessions ==> after.sessions[c].LogStream?)
      && forall o | o != c ::
           && after.Line(o) == g.Line(o)
           && (o in after.sessions <==> o in g.sessions) && (o in g.sessions ==> after.sessions[o] == g.sessions[o])
           && (o in after.infos <==> o in g.infos) && (o in g.infos ==> after.infos[o] == g.infos[o])
  {
  }

  /** Without an open terminal nothing a client types has any effect, however long it types. */
  lemma {:induction false} TypingNeedsTerminal(g: Gateway, events: seq<Event>, c: Client)
    requires !(c in g.sessions && g.sessions[c].Terminal?) && forall e | e in events :: e.Input? && e.client == c
    ensures Run(g, events) == g
    decreases |events|
  {
    if events != [] {
      assert events[0] in events && forall e | e in events[1..] :: e in events;
      TypingNeedsTerminal(g, events[1..], c);
    }
  }

  lemma {:induction false} UnloggedTypingIsNotLogged(g: Gateway, events: seq<Event>, c: Client)
    requires c !in g.infos && OnlyTypes(events, c)
    ensures CommandsOf(Run(g, events).log, c) == CommandsOf(g.log, c)
    decreases |events|
  {
    if events != [] {
      var e := events[0];
      assert e in events && forall e | e in events[1..] :: e in events;
      if e.client != c {
        OthersDoNotMatter(g, e, c);
      }
      UnloggedTypingIsNotLogged(Step(g, e), events[1..], c);
    }
  }

  /** The lines agree whether or not the terminal is logged. */
  lemma {:induction false} LinesAgree(g: Gateway, hook: Hook, events: seq<Event>, c: Client)
    requires c in g.sessions && g.sessions[c].Terminal? && g.Line(c) == hook.buffer && OnlyTypes(events, c)
    ensures Run(g, events).Line(c) == Typed(hook, events, c).buffer
    decreases |events|
  {
    if events != [] {
      var e := events[0];
      assert e in events && forall e | e in events[1..] :: e in events;
      LinesAgree(Step(g, e), if e.client == c then hook.OnData(e.data) else hook, events[1..], c);
    }
  }

  /**
   After a terminal is opened over a session nothing its client types is logged,
   whatever it types and whatever others do, while the two lines go on agreeing.
   */
  lemma ReconnectedTypingIsNotLogged(g: Gateway, e: Event, hook: Hook, events: seq<Event>)
    requires Reconnects(g, e) && OnlyTypes(events, e.client)
    ensures CommandsOf(Run(g, [e] + events).log, e.client) == CommandsOf(g.log, e.client)
    ensures hook.buffer == "" ==> Run(g, [e] + events).Line(e.client) == Typed(hook, events, e.client).buffer
  {
    assert ([e] + events)[0] == e && ([e] + events)[1..] == events;
    UnloggedTypingIsNotLogged(Step(g, e), events, e.client);
    if hook.buffer == "" {
      LinesAgree(Step(g, e), hook, events, e.client);
    }
  }
}
