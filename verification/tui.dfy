/** The key handling of the terminal front end (`src/tui.rs`): a small state
    machine over an input mode, two text buffers and the ledger. Only key
    presses act; `q` quits from the normal mode, `u` and `t` open the user and
    amount prompts, Enter commits a prompt, Esc cancels it, Backspace edits it,
    and the amount prompt accepts only digits and one decimal point. */
module Tui {
  import opened Collections
  import Ledger
  import Invariants

  datatype InputMode = Normal | AddingUser | AddingTransactionAmount

  datatype App = App(
    exit: bool,
    inputMode: InputMode,
    userInput: string,
    transactionAmountInput: string,
    users: Ledger.Users)

  datatype KeyEventKind = Press | Repeat | Release

  /** The key codes the handler distinguishes; every other key is `OtherKey`. */
  datatype KeyCode = Char(c: char) | Esc | Enter | Backspace | OtherKey

  datatype KeyEvent = KeyEvent(code: KeyCode, kind: KeyEventKind)

  /** What the terminal delivers: key events and everything else (resizes,
      mouse, focus), which the run loop ignores. */
  datatype Event = Key(key: KeyEvent) | OtherEvent

  /** `AsWritten` is the match of `handle_key_event`, whose `u`, `t` and `q`
      arms come before the generic character arm even while a user name is
      typed; `Corrected` types every character into a user name. */
  datatype Keymap = AsWritten | Corrected

  /** The application state of `start_tui`. */
  function Start(): (app: App)
    ensures !app.exit && app.inputMode == Normal
    ensures app.userInput == [] && app.transactionAmountInput == []
    ensures app.users == Ledger.New()
  {
    App(false, Normal, [], [], Ledger.New())
  }

  // Rust's `str::trim`.

  /** The Unicode `White_Space` property, which `char::is_whitespace` tests. */
  predicate IsWhitespace(c: char) {
    || ('\U{0009}' <= c <= '\U{000D}')
    || c == '\U{0020}' || c == '\U{0085}' || c == '\U{00A0}' || c == '\U{1680}'
    || ('\U{2000}' <= c <= '\U{200A}')
    || c == '\U{2028}' || c == '\U{2029}' || c == '\U{202F}' || c == '\U{205F}' || c == '\U{3000}'
  }

  /** `s` without its leading whitespace. */
  function TrimStart(s: string): (r: string)
    ensures |r| <= |s| && r == s[|s| - |r|..]
    ensures forall k :: 0 <= k < |s| - |r| ==> IsWhitespace(s[k])
    ensures |r| > 0 ==> !IsWhitespace(r[0])
  {
    if |s| > 0 && IsWhitespace(s[0]) then
      var r := TrimStart(s[1..]);
      TrimStartStep(s, s[1..], r);
      r
    else s
  }

  /** Dropping a leading whitespace character and then a whitespace prefix of
      the rest drops a whitespace prefix of `s`. */
  lemma TrimStartStep(s: string, t: string, r: string)
    requires |s| > 0 && IsWhitespace(s[0]) && t == s[1..]
    requires |r| <= |t| && r == t[|t| - |r|..]
    requires forall k :: 0 <= k < |t| - |r| ==> IsWhitespace(t[k])
    ensures r == s[|s| - |r|..]
    ensures forall k :: 0 <= k < |s| - |r| ==> IsWhitespace(s[k])
  {
    forall k | 0 < k < |s| - |r| ensures IsWhitespace(s[k]) {
      assert s[k] == t[k - 1];
    }
  }

  /** `s` without its trailing whitespace. */
  function TrimEnd(s: string): (r: string)
    ensures |r| <= |s| && r == s[..|r|]
    ensures forall k :: |r| <= k < |s| ==> IsWhitespace(s[k])
    ensures |r| > 0 ==> !IsWhitespace(r[|r| - 1])
  {
    if |s| > 0 && IsWhitespace(s[|s| - 1]) then
      var r := TrimEnd(s[..|s| - 1]);
      TrimEndStep(s, s[..|s| - 1], r);
      r
    else s
  }

  /** Dropping a trailing whitespace character and then a whitespace suffix
      of the rest drops a whitespace suffix of `s`. */
  lemma TrimEndStep(s: string, t: string, r: string)
    requires |s| > 0 && IsWhitespace(s[|s| - 1]) && t == s[..|s| - 1]
    requires |r| <= |t| && r == t[..|r|]
    requires forall k :: |r| <= k < |t| ==> IsWhitespace(t[k])
    ensures r == s[..|r|]
    ensures forall k :: |r| <= k < |s| ==> IsWhitespace(s[k])
  {
    forall k | |r| <= k < |s| - 1 ensures IsWhitespace(s[k]) {
      assert s[k] == t[k];
    }
  }

  /** Whitespace after `j` in a suffix `s[i..]` is whitespace after `i + j` in `s`. */
  lemma SuffixWhitespace(s: string, i: nat, j: nat)
    requires i <= |s| && j <= |s| - i
    requires forall k :: j <= k < |s[i..]| ==> IsWhitespace(s[i..][k])
    ensures forall k :: i + j <= k < |s| ==> IsWhitespace(s[k])
  {
    forall k | i + j <= k < |s| ensures IsWhitespace(s[k]) {
      assert s[k] == s[i..][k - i];
    }
  }

  /** `r` is a slice `s[i..j]` of `s` with only whitespace outside it. */
  ghost predicate Surrounds(s: string, r: string) {
    exists i, j ::
      (&& 0 <= i <= j <= |s| && r == s[i..j]
       && (forall k :: 0 <= k < i ==> IsWhitespace(s[k]))
       && (forall k :: j <= k < |s| ==> IsWhitespace(s[k])))
  }

  /** Trimming the start and then the end cuts off only whitespace. */
  lemma TrimCut(s: string)
    ensures Surrounds(s, TrimEnd(TrimStart(s)))
  {
    var a := TrimStart(s);
    var r := TrimEnd(a);
    var i := |s| - |a|;
    SliceOfSuffix(s, i, r);
    SuffixWhitespace(s, i, |r|);
    SurroundsAt(s, r, i, i + |r|);
  }

  /** A prefix of the suffix `s[i..]` is a slice of `s`. */
  lemma SliceOfSuffix(s: string, i: nat, r: string)
    requires i <= |s| && |r| <= |s| - i && r == s[i..][..|r|]
    ensures r == s[i..i + |r|]
  {
  }

  /** The cut points `i` and `j` witness `Surrounds`. */
  lemma SurroundsAt(s: string, r: string, i: nat, j: nat)
    requires i <= j <= |s| && r == s[i..j]
    requires forall k :: 0 <= k < i ==> IsWhitespace(s[k])
    requires forall k :: j <= k < |s| ==> IsWhitespace(s[k])
    ensures Surrounds(s, r)
  {
  }

  /** `s` without leading and trailing whitespace: a slice of `s` with only
      whitespace outside it and none at its ends. */
  function Trim(s: string): (r: string)
    ensures Surrounds(s, r)
    ensures |r| > 0 ==> !IsWhitespace(r[0]) && !IsWhitespace(r[|r| - 1])
  {
    TrimCut(s);
    TrimEnd(TrimStart(s))
  }

  /** A string with no whitespace at either end is its own trim. */
  lemma TrimTrimmed(s: string)
    requires |s| > 0 && !IsWhitespace(s[0]) && !IsWhitespace(s[|s| - 1])
    ensures Trim(s) == s
  {
    assert TrimStart(s) == s;
    assert TrimEnd(s) == s;
  }

  /** A trimmed string is empty exactly when the string is all whitespace. */
  lemma TrimEmpty(s: string)
    ensures Trim(s) == [] <==> forall k :: 0 <= k < |s| ==> IsWhitespace(s[k])
  {
    var r := Trim(s);
    var i, j :| 0 <= i <= j <= |s| && r == s[i..j];
    assert |r| > 0 ==> r[0] == s[i];
  }

  /** Trimming twice is trimming once. */
  lemma TrimIdempotent(s: string)
    ensures Trim(Trim(s)) == Trim(s)
  {
    var r := Trim(s);
    if |r| > 0 {
      assert TrimStart(r) == r;
      assert TrimEnd(r) == r;
    }
  }

  // The amount prompt.

  predicate IsAsciiDigit(c: char) {
    '0' <= c <= '9'
  }

  /** Digits and at most one decimal point: all the amount prompt ever holds. */
  predicate ValidAmount(s: string) {
    && (forall k :: 0 <= k < |s| ==> IsAsciiDigit(s[k]) || s[k] == '.')
    && (forall k, l :: 0 <= k < l < |s| && s[k] == '.' ==> s[l] != '.')
  }

  /** The amount prompt after typing `c`: digits are appended, and so is a
      decimal point when there is none yet; anything else is ignored. */
  function TypeAmount(s: string, c: char): (r: string)
    ensures ValidAmount(s) ==> ValidAmount(r)
    ensures r == s || r == s + [c]
    ensures r == s + [c] <==> IsAsciiDigit(c) || (c == '.' && '.' !in s)
  {
    if IsAsciiDigit(c) then s + [c]
    else if c == '.' && '.' !in s then s + [c]
    else s
  }

  /** Rust's `String::pop`, discarding the popped character: nothing happens to an empty string. */
  function Pop(s: string): (r: string)
    ensures |s| == 0 ==> r == s
    ensures |s| > 0 ==> r + [s[|s| - 1]] == s
  {
    if |s| == 0 then s else s[..|s| - 1]
  }

  /** Dropping the last character keeps the amount valid. */
  lemma PopValidAmount(s: string)
    requires ValidAmount(s)
    ensures ValidAmount(Pop(s))
  {
  }

  // The handler.

  /** Enter: commit the open prompt. A non-blank user name is added to the
      ledger; the amount is discarded (the source records no transaction
      yet). Either way the prompt closes and its buffer is cleared. */
  function Commit(app: App): (r: App)
    ensures !r.exit <==> !app.exit
    ensures app.inputMode == Normal ==> r == app
    ensures app.inputMode != Normal ==> r.inputMode == Normal
    ensures app.inputMode == AddingUser ==>
      && r.userInput == []
      && r.transactionAmountInput == app.transactionAmountInput
      && r.users == (if Trim(app.userInput) == [] then app.users else Ledger.AddUser(app.users, Trim(app.userInput)))
    ensures app.inputMode == AddingTransactionAmount ==>
      r == app.(inputMode := Normal, transactionAmountInput := [])
  {
    match app.inputMode
    case AddingUser =>
      var name := Trim(app.userInput);
      var users := if name != [] then Ledger.AddUser(app.users, name) else app.users;
      app.(users := users, inputMode := Normal, userInput := [])
    case AddingTransactionAmount =>
      app.(inputMode := Normal, transactionAmountInput := [])
    case Normal => app
  }

  /** A character key that no earlier arm claimed: typed into the open prompt. */
  function TypeChar(app: App, c: char): (r: App)
    ensures r.exit == app.exit && r.inputMode == app.inputMode && r.users == app.users
    ensures app.inputMode == Normal ==> r == app
    ensures app.inputMode == AddingUser ==>
      r.userInput == app.userInput + [c] && r.transactionAmountInput == app.transactionAmountInput
    ensures app.inputMode == AddingTransactionAmount ==>
      r.userInput == app.userInput && r.transactionAmountInput == TypeAmount(app.transactionAmountInput, c)
  {
    match app.inputMode
    case AddingUser => app.(userInput := app.userInput + [c])
    case AddingTransactionAmount => app.(transactionAmountInput := TypeAmount(app.transactionAmountInput, c))
    case Normal => app
  }

  /** `handle_key_event` (under `km`). Only presses act. */
  function HandleKeyEvent(km: Keymap, app: App, ev: KeyEvent): (r: App)
    ensures ev.kind != Press ==> r == app
    ensures app.exit ==> r.exit
    ensures !app.exit ==> (r.exit <==> ev == KeyEvent(Char('q'), Press) && app.inputMode == Normal)
    ensures ValidAmount(app.transactionAmountInput) ==> ValidAmount(r.transactionAmountInput)
    ensures r.users.transactions == app.users.transactions
    ensures r.users == app.users || r.users == Ledger.AddUser(app.users, Trim(app.userInput))
    ensures r.users != app.users ==>
      ev == KeyEvent(Enter, Press) && app.inputMode == AddingUser && Trim(app.userInput) != []
    ensures ev == KeyEvent(Enter, Press) ==> r.inputMode == Normal
    ensures km == Corrected && ev.kind == Press && app.inputMode == AddingUser && ev.code.Char? ==>
      r == app.(userInput := app.userInput + [ev.code.c])
    ensures ev == KeyEvent(Esc, Press) ==> r == app.(inputMode := Normal)
    ensures ev == KeyEvent(Char('q'), Press) && app.inputMode != Normal ==>
      r == app.(userInput := app.userInput + ['q'])
    ensures ev == KeyEvent(Backspace, Press) ==>
      r == match app.inputMode
           case Normal => app
           case AddingUser => app.(userInput := Pop(app.userInput))
           case AddingTransactionAmount => app.(transactionAmountInput := Pop(app.transactionAmountInput))
    ensures ev.kind == Press && ev.code.Char? && ev.code.c !in "qut" ==> r == TypeChar(app, ev.code.c)
    ensures ev == KeyEvent(OtherKey, Press) ==> r == app
  {
    if ev.kind != Press then app
    else if km == Corrected && app.inputMode == AddingUser && ev.code.Char? then
      TypeChar(app, ev.code.c)
    else
      match ev.code
      case Char(c) =>
        if c == 'q' then
          if app.inputMode == Normal then app.(exit := true)
          else app.(userInput := app.userInput + ['q'])
        else if c == 'u' then app.(inputMode := AddingUser, userInput := [])
        else if c == 't' then app.(inputMode := AddingTransactionAmount, transactionAmountInput := [])
        else TypeChar(app, c)
      case Esc => app.(inputMode := Normal)
      case Enter => Commit(app)
      case Backspace =>
        (match app.inputMode
         case AddingUser => app.(userInput := Pop(app.userInput))
         case AddingTransactionAmount => app.(transactionAmountInput := Pop(app.transactionAmountInput))
         case Normal => app)
      case OtherKey => app
  }

  /** The loop of `App::run`: handle events until the exit flag is set; a
      state that has exited consumes no more events. (Drawing after every
      event is left out.) */
  function Run(km: Keymap, app: App, evs: seq<Event>): (r: App)
    ensures app.exit ==> r == app
    ensures r.users.transactions == app.users.transactions
    ensures app.users.users.Keys <= r.users.users.Keys
    decreases |evs|
  {
    if app.exit || |evs| == 0 then app
    else
      Ledger.AddUserIdempotent(app.users, Trim(app.userInput));
      Run(km, Step(km, app, evs[0]), evs[1..])
  }

  /** One terminal event: key events go to the handler, the rest are ignored. */
  function Step(km: Keymap, app: App, e: Event): (r: App)
    ensures e.OtherEvent? ==> r == app
    ensures e.Key? ==> r == HandleKeyEvent(km, app, e.key)
  {
    match e
    case Key(k) => HandleKeyEvent(km, app, k)
    case OtherEvent => app
  }

  /** Running a batch that starts with `e` is stepping through `e`, then running the rest. */
  lemma RunCons(km: Keymap, app: App, e: Event, evs: seq<Event>)
    requires !app.exit
    ensures Run(km, app, [e] + evs) == Run(km, Step(km, app, e), evs)
  {
    assert ([e] + evs)[0] == e && ([e] + evs)[1..] == evs;
  }

  /** Once the loop exits, later events make no difference. */
  lemma {:induction false} RunStopsAtExit(km: Keymap, app: App, evs: seq<Event>, more: seq<Event>)
    requires Run(km, app, evs).exit
    ensures Run(km, app, evs + more) == Run(km, app, evs)
    decreases |evs|
  {
    if !app.exit {
      if |evs| == 0 {
        assert false;
      } else {
        assert (evs + more)[0] == evs[0] && (evs + more)[1..] == evs[1..] + more;
        var next := Step(km, app, evs[0]);
        RunStopsAtExit(km, next, evs[1..], more);
      }
    }
  }

  /** The amount prompt holds a valid amount in every state the loop reaches. */
  lemma {:induction false} RunKeepsValidAmount(km: Keymap, app: App, evs: seq<Event>)
    requires ValidAmount(app.transactionAmountInput)
    ensures ValidAmount(Run(km, app, evs).transactionAmountInput)
    decreases |evs|
  {
    if !app.exit && |evs| > 0 {
      var next := Step(km, app, evs[0]);
      RunKeepsValidAmount(km, next, evs[1..]);
    }
  }

  /** The ledger stays well formed and balanced whatever keys are pressed. */
  lemma {:induction false} RunKeepsLedgerInvariant(km: Keymap, app: App, evs: seq<Event>)
    requires Invariants.WellFormed(app.users) && Invariants.Balanced(app.users)
    ensures Invariants.WellFormed(Run(km, app, evs).users)
    ensures Invariants.Balanced(Run(km, app, evs).users)
    decreases |evs|
  {
    if !app.exit && |evs| > 0 {
      var next := Step(km, app, evs[0]);
      Invariants.AddUserPreserves(app.users, Trim(app.userInput));
      RunKeepsLedgerInvariant(km, next, evs[1..]);
    }
  }

  // The shadowed letters.

  /** Neither `u` nor `t` occurs in `s`. */
  predicate WithoutUT(s: string) {
    forall k :: 0 <= k < |s| ==> s[k] != 'u' && s[k] != 't'
  }

  /** Under the as-written keymap one event clears the user prompt, keeps
      it, pops from it, or appends a character other than `u` and `t`. */
  lemma AsWrittenUserInput(app: App, ev: KeyEvent)
    ensures var r := HandleKeyEvent(AsWritten, app, ev).userInput;
      || r == [] || r == app.userInput || r == Pop(app.userInput)
      || (ev.code.Char? && ev.code.c != 'u' && ev.code.c != 't' && r == app.userInput + [ev.code.c])
  {
    var r := HandleKeyEvent(AsWritten, app, ev);
    if ev.kind == Press {
      match ev.code
      case Char(c) =>
        if c == 'u' {
          assert r.userInput == [];
        } else if c != 't' && c != 'q' {
          assert r == TypeChar(app, c);
        }
      case Enter =>
        assert r == Commit(app);
      case _ =>
    }
  }

  /** Trimming keeps a string free of `u` and `t`. */
  lemma TrimWithoutUT(s: string)
    requires WithoutUT(s)
    ensures WithoutUT(Trim(s))
  {
    var r := Trim(s);
    var i, j :| 0 <= i <= j <= |s| && r == s[i..j];
    SliceWithoutUT(s, i, j);
  }

  /** Every slice of a string free of `u` and `t` is free of them. */
  lemma SliceWithoutUT(s: string, i: nat, j: nat)
    requires i <= j <= |s| && WithoutUT(s)
    ensures WithoutUT(s[i..j])
  {
    assert forall k :: 0 <= k < j - i ==> s[i..j][k] == s[i + k];
  }

  /** One event under the as-written keymap adds no `u` or `t` to the user prompt. */
  lemma AsWrittenPromptDropsUT(app: App, ev: KeyEvent)
    requires WithoutUT(app.userInput)
    ensures WithoutUT(HandleKeyEvent(AsWritten, app, ev).userInput)
  {
    var r := HandleKeyEvent(AsWritten, app, ev).userInput;
    AsWrittenUserInput(app, ev);
    if r == Pop(app.userInput) && |app.userInput| > 0 {
      assert r == app.userInput[..|app.userInput| - 1];
    }
  }

  /** One event under the as-written keymap adds no `u` or `t` to the user
      prompt or to the user names. */
  lemma AsWrittenStepDropsUT(app: App, ev: KeyEvent)
    requires WithoutUT(app.userInput)
    requires forall n :: n in app.users.users ==> WithoutUT(n)
    ensures WithoutUT(HandleKeyEvent(AsWritten, app, ev).userInput)
    ensures forall n :: n in HandleKeyEvent(AsWritten, app, ev).users.users ==> WithoutUT(n)
  {
    AsWrittenPromptDropsUT(app, ev);
    TrimWithoutUT(app.userInput);
    var users := HandleKeyEvent(AsWritten, app, ev).users;
    assert users.users.Keys <= app.users.users.Keys + {Trim(app.userInput)};
  }

  /** As written, the user prompt never holds a `u` or a `t`, and so no user
      name typed into it contains one: the `u` key restarts the prompt and
      the `t` key switches to the amount prompt. */
  lemma {:induction false} AsWrittenDropsUT(app: App, evs: seq<Event>)
    requires WithoutUT(app.userInput)
    requires forall n :: n in app.users.users ==> WithoutUT(n)
    ensures WithoutUT(Run(AsWritten, app, evs).userInput)
    ensures forall n :: n in Run(AsWritten, app, evs).users.users ==> WithoutUT(n)
    decreases |evs|
  {
    if !app.exit && |evs| > 0 {
      match evs[0]
      case Key(k) =>
        AsWrittenStepDropsUT(app, k);
        AsWrittenDropsUT(HandleKeyEvent(AsWritten, app, k), evs[1..]);
      case OtherEvent =>
        AsWrittenDropsUT(app, evs[1..]);
    }
  }

  /** The key presses of the characters of `text`, in order. */
  function Typed(text: string): (evs: seq<Event>)
    ensures |evs| == |text|
    ensures forall k :: 0 <= k < |text| ==> evs[k] == Key(KeyEvent(Char(text[k]), Press))
  {
    seq(|text|, k requires 0 <= k < |text| => Key(KeyEvent(Char(text[k]), Press)))
  }

  /** The key presses `u`, then `name`, then Enter, as terminal events. */
  function TypeName(name: string): (evs: seq<Event>)
    ensures |evs| == |name| + 2
    ensures evs[0] == Key(KeyEvent(Char('u'), Press)) && evs[|evs| - 1] == Key(KeyEvent(Enter, Press))
    ensures forall k :: 0 <= k < |name| ==> evs[k + 1] == Key(KeyEvent(Char(name[k]), Press))
  {
    [Key(KeyEvent(Char('u'), Press))] + (Typed(name) + [Key(KeyEvent(Enter, Press))])
  }

  /** Typing a non-empty text is pressing its first character, then typing the rest. */
  lemma TypedCons(text: string)
    requires |text| > 0
    ensures Typed(text) == [Key(KeyEvent(Char(text[0]), Press))] + Typed(text[1..])
  {
  }

  /** With the corrected keymap, typing characters into the open user prompt appends them. */
  lemma {:induction false} CorrectedTypes(app: App, name: string)
    requires !app.exit && app.inputMode == AddingUser
    ensures Run(Corrected, app, Typed(name)) == app.(userInput := app.userInput + name)
    decreases |name|
  {
    if |name| > 0 {
      var next := app.(userInput := app.userInput + [name[0]]);
      TypedCons(name);
      RunCons(Corrected, app, Key(KeyEvent(Char(name[0]), Press)), Typed(name[1..]));
      CorrectedTypes(next, name[1..]);
      AppendFirst(app.userInput, name);
    }
  }

  /** Appending the first character and then the rest appends the whole text. */
  lemma AppendFirst(prefix: string, text: string)
    requires |text| > 0
    ensures (prefix + [text[0]]) + text[1..] == prefix + text
  {
    assert text == [text[0]] + text[1..];
  }

  /** `u` opens an empty user prompt, unless the corrected keymap is typing a user name. */
  lemma PressU(km: Keymap, app: App)
    requires km == AsWritten || app.inputMode != AddingUser
    ensures HandleKeyEvent(km, app, KeyEvent(Char('u'), Press)) == app.(inputMode := AddingUser, userInput := [])
  {
  }

  /** `t` opens an empty amount prompt, unless the corrected keymap is typing a user name. */
  lemma PressT(km: Keymap, app: App)
    requires km == AsWritten || app.inputMode != AddingUser
    ensures HandleKeyEvent(km, app, KeyEvent(Char('t'), Press))
         == app.(inputMode := AddingTransactionAmount, transactionAmountInput := [])
  {
  }

  /** Enter commits the open prompt, and does nothing when none is open
      (under either keymap). */
  lemma PressEnter(km: Keymap, app: App)
    ensures HandleKeyEvent(km, app, KeyEvent(Enter, Press)) == Commit(app)
    ensures app.inputMode == Normal ==> HandleKeyEvent(km, app, KeyEvent(Enter, Press)) == app
  {
  }

  /** Esc closes whatever prompt is open and keeps both buffers (under either keymap). */
  lemma PressEsc(km: Keymap, app: App)
    ensures HandleKeyEvent(km, app, KeyEvent(Esc, Press)) == app.(inputMode := Normal)
  {
  }

  /** Backspace drops the last character of the open prompt's buffer and
      does nothing when no prompt is open (under either keymap). */
  lemma PressBackspace(km: Keymap, app: App)
    ensures app.inputMode == Normal ==> HandleKeyEvent(km, app, KeyEvent(Backspace, Press)) == app
    ensures app.inputMode == AddingUser ==>
      HandleKeyEvent(km, app, KeyEvent(Backspace, Press)) == app.(userInput := Pop(app.userInput))
    ensures app.inputMode == AddingTransactionAmount ==>
      HandleKeyEvent(km, app, KeyEvent(Backspace, Press))
        == app.(transactionAmountInput := Pop(app.transactionAmountInput))
  {
  }

  /** `q` quits when no prompt is open; in either prompt it is appended to
      the user buffer, so in the amount prompt it lands in the (hidden) user
      buffer rather than in the amount. */
  lemma PressQ(km: Keymap, app: App)
    ensures app.inputMode == Normal ==> HandleKeyEvent(km, app, KeyEvent(Char('q'), Press)) == app.(exit := true)
    ensures app.inputMode != Normal ==>
      HandleKeyEvent(km, app, KeyEvent(Char('q'), Press)) == app.(userInput := app.userInput + ['q'])
  {
  }

  /** With the corrected keymap, pressing `u`, typing a name without
      surrounding whitespace and pressing Enter adds exactly that name, even
      when it contains `u` or `t`. */
  lemma CorrectedAddsTypedName(app: App, name: string)
    requires !app.exit && app.inputMode == Normal
    requires |name| > 0 && !IsWhitespace(name[0]) && !IsWhitespace(name[|name| - 1])
    ensures Run(Corrected, app, TypeName(name)).users == Ledger.AddUser(app.users, name)
  {
    var prefix := [Key(KeyEvent(Char('u'), Press))] + Typed(name);
    var enter := [Key(KeyEvent(Enter, Press))];
    assert TypeName(name) == prefix + enter;
    RunSplit(Corrected, app, prefix, enter);
    CorrectedFillsPrompt(app, name);
    RunEnter(Corrected, app.(inputMode := AddingUser, userInput := name));
    TrimTrimmed(name);
  }

  /** With the corrected keymap, `u` followed by the characters of `name`
      leaves exactly `name` in the open user prompt. */
  lemma CorrectedFillsPrompt(app: App, name: string)
    requires !app.exit && app.inputMode == Normal
    ensures Run(Corrected, app, [Key(KeyEvent(Char('u'), Press))] + Typed(name))
         == app.(inputMode := AddingUser, userInput := name)
  {
    var prompt := app.(inputMode := AddingUser, userInput := []);
    RunCons(Corrected, app, Key(KeyEvent(Char('u'), Press)), Typed(name));
    PressU(Corrected, app);
    CorrectedTypes(prompt, name);
    assert [] + name == name;
  }

  /** Enter alone, on an open prompt, commits it. */
  lemma RunEnter(km: Keymap, app: App)
    requires !app.exit && app.inputMode != Normal
    ensures Run(km, app, [Key(KeyEvent(Enter, Press))]) == Commit(app)
  {
    var enter := Key(KeyEvent(Enter, Press));
    assert [enter] == [enter] + [];
    RunCons(km, app, enter, []);
    PressEnter(km, app);
  }

  /** Running two batches of events is running the first, then the second. */
  lemma {:induction false} RunSplit(km: Keymap, app: App, evs: seq<Event>, more: seq<Event>)
    ensures Run(km, app, evs + more) == Run(km, Run(km, app, evs), more)
    decreases |evs|
  {
    if !app.exit && |evs| > 0 {
      assert (evs + more)[0] == evs[0] && (evs + more)[1..] == evs[1..] + more;
      var next := Step(km, app, evs[0]);
      RunSplit(km, next, evs[1..], more);
    } else if |evs| == 0 {
      assert evs + more == more;
    }
  }

  /** As written, the same keys for the name `ut` leave the ledger unchanged
      and the amount prompt open instead. */
  lemma AsWrittenLosesUT(app: App)
    requires !app.exit && app.inputMode == Normal
    ensures var r := Run(AsWritten, app, TypeName("ut"));
      r.users == app.users && r.inputMode == Normal && r.userInput == []
  {
    var u, t, enter := Key(KeyEvent(Char('u'), Press)), Key(KeyEvent(Char('t'), Press)), Key(KeyEvent(Enter, Press));
    assert TypeName("ut") == [u] + ([u] + ([t] + ([enter] + [])));
    var a1 := app.(inputMode := AddingUser, userInput := []);
    var a3 := a1.(inputMode := AddingTransactionAmount, transactionAmountInput := []);
    RunCons(AsWritten, app, u, [u] + ([t] + ([enter] + [])));
    PressU(AsWritten, app);
    RunCons(AsWritten, a1, u, [t] + ([enter] + []));
    PressU(AsWritten, a1);
    RunCons(AsWritten, a1, t, [enter] + []);
    PressT(AsWritten, a1);
    RunCons(AsWritten, a3, enter, []);
    PressEnter(AsWritten, a3);
  }
}
