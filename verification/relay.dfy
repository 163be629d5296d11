/** The handlers that drive tmux. Each external `tmux` call is recorded as
    its argument vector, appended to a command log; output that a call
    captures is a parameter of the handler. */
module Relay {
  import opened Options
  import opened Text
  import Decimal
  import opened Windows

  /** `ALLOWED_KEYS`: the only key names `/key` forwards. */
  const AllowedKeys: set<string> := {
    "Up", "Down", "Left", "Right", "Tab", "Escape", "Enter",
    "C-c", "C-l", "C-d", "C-z", "C-a", "C-e", "C-k", "C-u", "C-o",
    "BSpace", "DC", "Home", "End", "PPage", "NPage"
  }

  const KeyNotAllowed: string := "key not allowed"

  /** Neither tmux's prefix chord nor raw control text gets through. */
  lemma DangerousKeysRejected()
    ensures "C-b" !in AllowedKeys
    ensures "q" !in AllowedKeys && "" !in AllowedKeys
    ensures forall k :: k in AllowedKeys ==> ' ' !in k && '\n' !in k && ';' !in k
  {
  }

  /** The scalar JSON values a request body can carry where the handlers
      read `payload["index"]` and `payload.get("window", "")`. */
  datatype Json = Null | Bool(b: bool) | Int(i: int) | Str(s: string)

  /** Python truthiness: `None`, `False`, `0` and `""` are the falsy
      values. */
  predicate Truthy(v: Json)
    ensures Truthy(v) <==> v !in {Null, Bool(false), Int(0), Str([])}
  {
    match v
    case Null => false
    case Bool(b) => b
    case Int(i) => i != 0
    case Str(s) => s != []
  }

  /** `f"{v}"`: a string as is, a natural number in decimal that reads
      back as the number, and a truthy value never as the empty string. */
  function Format(v: Json): (t: string)
    ensures v.Str? ==> t == v.s
    ensures v.Int? && v.i >= 0 ==> Decimal.Parse(t) == Some(v.i)
    ensures Truthy(v) ==> t != []
  {
    match v
    case Null => "None"
    case Bool(b) => if b then "True" else "False"
    case Int(i) =>
      if i < 0 then "-" + Decimal.Render(-i)
      else
        Decimal.ParseRender(i);
        Decimal.Render(i)
    case Str(s) => s
  }

  /** `f"{TMUX_SESSION}:{idx}"`: the session, a colon, then the window. */
  function WindowTarget(session: string, idx: Json): (t: string)
    ensures session < t && t[|session|] == ':'
    ensures t[|session| + 1..] == Format(idx)
  {
    session + ":" + Format(idx)
  }

  /** The target of `/tmux/exec`: the given window, or the bare session
      (its active window) when the window is falsy. It always addresses the
      session, and is the bare session exactly for a falsy window. */
  function ExecTarget(session: string, window: Json): (t: string)
    ensures session <= t
    ensures t == session <==> !Truthy(window)
  {
    if Truthy(window) then WindowTarget(session, window) else session
  }

  /** A falsy window, `0` and the absent default `""` included, targets the
      session's active window; a truthy one targets that window. */
  lemma ExecTargetChoice(session: string, window: Json)
    ensures !Truthy(window) ==> ExecTarget(session, window) == session
    ensures Truthy(window) ==> ExecTarget(session, window) == WindowTarget(session, window)
    ensures ExecTarget(session, Int(0)) == session && ExecTarget(session, Str([])) == session
  {
  }

  /** tmux reads `session:window` back as that session and that window
      when the session name has no colon. */
  lemma {:induction false} WindowTargetSplits(session: string, idx: nat)
    requires ':' !in session
    ensures Split(WindowTarget(session, Int(idx)), ':') == [session, Decimal.Render(idx)]
    ensures Decimal.Parse(Split(WindowTarget(session, Int(idx)), ':')[1]) == Some(idx)
  {
    var r := Decimal.Render(idx);
    assert WindowTarget(session, Int(idx)) == session + [':'] + r;
    SplitAround(session, r, ':');
    NoSeparatorSplit(session, ':');
    assert forall i :: 0 <= i < |r| ==> Decimal.IsDigit(r[i]);
    NoSeparatorSplit(r, ':');
    Decimal.ParseRender(idx);
  }

  /** The body of a `/key` reply and of the other status replies. */
  datatype Reply =
    | Sent                   // {"status": "sent"}
    | Rejected(error: string) // {"status": "rejected", "error": ...}
    | Switched(index: Json)  // {"status": "switched", "index": ...}
    | Created                // {"status": "created"}
    | Closed(index: Json)    // {"status": "closed", "index": ...}

  /** The resolved tmux binary, the target session, and the log of the
      commands run so far. */
  class TmuxRelay {
    const tmux: string
    const session: string
    var log: seq<seq<string>>

    constructor (tmux: string, session: string)
      ensures this.tmux == tmux && this.session == session && log == []
    {
      this.tmux := tmux;
      this.session := session;
      log := [];
    }

    /** `send_text`: the literal text, then Enter, to the session. */
    method SendText(text: string) returns (reply: Reply)
      modifies this
      ensures reply == Sent
      ensures log == old(log) + [
        [tmux, "send-keys", "-t", session, "-l", text],
        [tmux, "send-keys", "-t", session, "Enter"]]
    {
      log := log + [[tmux, "send-keys", "-t", session, "-l", text]];
      log := log + [[tmux, "send-keys", "-t", session, "Enter"]];
      reply := Sent;
    }

    /** `send_key`: a key outside the allow-list is rejected and runs
        nothing; an allowed key runs exactly one command. */
    method SendKey(key: string) returns (reply: Reply)
      modifies this
      ensures key !in AllowedKeys ==> reply == Rejected(KeyNotAllowed) && log == old(log)
      ensures key in AllowedKeys ==>
        reply == Sent && log == old(log) + [[tmux, "send-keys", "-t", session, key]]
    {
      if key !in AllowedKeys {
        return Rejected(KeyNotAllowed);
      }
      log := log + [[tmux, "send-keys", "-t", session, key]];
      reply := Sent;
    }

    /** `copy_pane`: `captured` is `result.stdout` after text-mode decoding
        (universal newlines); it is returned as is. */
    method CopyPane(captured: string) returns (text: string)
      modifies this
      ensures text == captured
      ensures log == old(log) + [[tmux, "capture-pane", "-t", session, "-p", "-S", "-"]]
    {
      log := log + [[tmux, "capture-pane", "-t", session, "-p", "-S", "-"]];
      text := captured;
    }

    /** `list_windows`: `listing` is `result.stdout` after text-mode
        decoding, where `\r\n` and a lone `\r` have become `\n`; `None` stands for the
        failed request when a listed line has a non-numeric index. */
    method ListWindows(listing: string) returns (windows: Option<seq<Window>>)
      modifies this
      ensures windows == ParseLines(Lines(listing))
      ensures log == old(log) + [[tmux, "list-windows", "-t", session, "-F", ListFormat]]
    {
      log := log + [[tmux, "list-windows", "-t", session, "-F", ListFormat]];
      windows := ParseWindowList(listing);
    }

    /** `select_window`. */
    method SelectWindow(idx: Json) returns (reply: Reply)
      modifies this
      ensures reply == Switched(idx)
      ensures log == old(log) + [[tmux, "select-window", "-t", WindowTarget(session, idx)]]
    {
      log := log + [[tmux, "select-window", "-t", WindowTarget(session, idx)]];
      reply := Switched(idx);
    }

    /** `new_window`: a non-empty command names the window "shell" and runs
        the command in it; without one tmux's defaults apply. */
    method NewWindow(command: Option<string>) returns (reply: Reply)
      modifies this
      ensures reply == Created
      ensures command.Some? && command.value != [] ==>
        log == old(log) + [[tmux, "new-window", "-t", session, "-n", "shell", command.value]]
      ensures command.None? || command.value == [] ==>
        log == old(log) + [[tmux, "new-window", "-t", session]]
    {
      var argv := [tmux, "new-window", "-t", session];
      if command.Some? && command.value != [] {
        argv := argv + ["-n", "shell", command.value];
        assert argv == [tmux, "new-window", "-t", session, "-n", "shell", command.value];
      }
      log := log + [argv];
      reply := Created;
    }

    /** `close_window`. */
    method CloseWindow(idx: Json) returns (reply: Reply)
      modifies this
      ensures reply == Closed(idx)
      ensures log == old(log) + [[tmux, "kill-window", "-t", WindowTarget(session, idx)]]
    {
      log := log + [[tmux, "kill-window", "-t", WindowTarget(session, idx)]];
      reply := Closed(idx);
    }

    /** `exec_command`: the same two commands as `send_text`, addressed to
        `ExecTarget`. `window` is `Str("")` when the request has none. */
    method Exec(window: Json, command: string) returns (reply: Reply)
      modifies this
      ensures reply == Sent
      ensures log == old(log) + [
        [tmux, "send-keys", "-t", ExecTarget(session, window), "-l", command],
        [tmux, "send-keys", "-t", ExecTarget(session, window), "Enter"]]
    {
      var t := ExecTarget(session, window);
      log := log + [[tmux, "send-keys", "-t", t, "-l", command]];
      log := log + [[tmux, "send-keys", "-t", t, "Enter"]];
      reply := Sent;
    }
  }
}
