/**
 * The root controller: it owns the loaded list, the new-todo input, the loading
 * flag and the error notification (messages, visibility and one auto-dismiss timer).
 */
module App {
  import opened Types

  const LoadErrorMessage := "Unable to load todos"
  const EmptyTitleMessage := "Title should not be empty"

  /** How long an armed timer waits before it hides the notification; data only, time is not modelled. */
  const ErrorDismissDelayMs := 3000

  /** No message occurs twice. */
  predicate NoDuplicates(s: seq<string>)
  {
    forall i, j :: 0 <= i < j < |s| ==> s[i] != s[j]
  }

  /**
   * The elements of `s` with repeats dropped, each at its first occurrence:
   * what spreading an insertion-ordered set built from `s` yields.
   */
  function Dedup(s: seq<string>): (r: seq<string>)
    ensures NoDuplicates(r)
    ensures forall m :: m in r <==> m in s
    ensures |r| <= |s|
    decreases |s|
  {
    if s == [] then []
    else
      var d := Dedup(s[..|s| - 1]);
      if s[|s| - 1] in d then d else d + [s[|s| - 1]]
  }

  /** `x` occurs in `s` before any occurrence of `y`. */
  ghost predicate OccursBefore(s: seq<string>, x: string, y: string)
  {
    exists a :: 0 <= a < |s| && s[a] == x && y !in s[..a]
  }

  /**
   * `Dedup` keeps first occurrences in order: of two messages it returns, the
   * earlier one occurs in `s` before any occurrence of the later one.
   */
  lemma {:induction false} DedupKeepsFirstOccurrenceOrder(s: seq<string>)
    ensures forall i, j :: 0 <= i < j < |Dedup(s)| ==> OccursBefore(s, Dedup(s)[i], Dedup(s)[j])
    decreases |s|
  {
    if s == [] {
      assert Dedup(s) == [];
    } else {
      var init, x := s[..|s| - 1], s[|s| - 1];
      var d := Dedup(init);
      DedupKeepsFirstOccurrenceOrder(init);
      assert Dedup(s) == if x in d then d else d + [x];
      forall i, j | 0 <= i < j < |Dedup(s)|
        ensures OccursBefore(s, Dedup(s)[i], Dedup(s)[j])
      {
        var r := Dedup(s);
        assert r[i] == d[i];
        var a;
        if j < |d| {
          assert r[j] == d[j];
          assert OccursBefore(init, d[i], d[j]);
          a :| 0 <= a < |init| && init[a] == d[i] && d[j] !in init[..a];
        } else {
          assert r[j] == x && x !in init;
          assert d[i] in d;
          a :| 0 <= a < |init| && init[a] == d[i];
        }
        assert s[..a] == init[..a] && s[a] == init[a];
      }
    }
  }

  /** A list without repeats comes out of `Dedup` unchanged. */
  lemma {:induction false} DedupKeepsDistinct(s: seq<string>)
    ensures NoDuplicates(s) ==> Dedup(s) == s
    decreases |s|
  {
    if s != [] && NoDuplicates(s) {
      var init := s[..|s| - 1];
      assert NoDuplicates(init);
      DedupKeepsDistinct(init);
      assert s[|s| - 1] !in init;
      assert init + [s[|s| - 1]] == s;
    }
  }

  /**
   * Adding a message to the active list as the notification does: the message
   * ends up present exactly once, and a list without repeats only grows by it
   * when it was absent, with the earlier messages kept in their order.
   */
  function AppendUnique(messages: seq<string>, m: string): (r: seq<string>)
    ensures m in r && NoDuplicates(r)
    ensures forall x :: x in r <==> x in messages || x == m
    ensures NoDuplicates(messages) ==> r == if m in messages then messages else messages + [m]
  {
    var all := messages + [m];
    assert all[..|all| - 1] == messages;
    DedupKeepsDistinct(messages);
    Dedup(all)
  }

  /**
   * The characters JavaScript's `trim` removes: white space and line
   * terminators. Spaces, tabs and line breaks are among them; letters and
   * digits never are.
   */
  predicate IsJsWhitespace(c: char): (ws: bool)
    ensures c == ' ' || c == '\t' || c == '\n' || c == '\r' ==> ws
    ensures ws ==> !('0' <= c <= '9') && !('a' <= c <= 'z') && !('A' <= c <= 'Z')
  {
    c == '\t' || c == '\n' || c == '\U{B}' || c == '\U{C}' || c == '\r' || c == ' ' ||
    c == '\U{A0}' || c == '\U{1680}' || ('\U{2000}' <= c <= '\U{200A}') ||
    c == '\U{2028}' || c == '\U{2029}' || c == '\U{202F}' || c == '\U{205F}' ||
    c == '\U{3000}' || c == '\U{FEFF}'
  }

  /** Every character of `s` is white space (the empty string included). */
  predicate IsBlank(s: string): (blank: bool)
    ensures blank <==> forall c :: c in s ==> IsJsWhitespace(c)
    ensures s == [] ==> blank
  {
    forall i :: 0 <= i < |s| ==> IsJsWhitespace(s[i])
  }

  /** `s` with its leading white space removed. */
  function TrimStart(s: string): (r: string)
    ensures |r| <= |s| && r == s[|s| - |r|..]
    ensures r != [] ==> !IsJsWhitespace(r[0])
    ensures forall i :: 0 <= i < |s| - |r| ==> IsJsWhitespace(s[i])
    decreases |s|
  {
    if s != [] && IsJsWhitespace(s[0]) then TrimStart(s[1..]) else s
  }

  /** `s` with its trailing white space removed. */
  function TrimEnd(s: string): (r: string)
    ensures |r| <= |s| && r == s[..|r|]
    ensures r != [] ==> !IsJsWhitespace(r[|r| - 1])
    ensures forall i :: |r| <= i < |s| ==> IsJsWhitespace(s[i])
    decreases |s|
  {
    if s != [] && IsJsWhitespace(s[|s| - 1]) then TrimEnd(s[..|s| - 1]) else s
  }

  /**
   * JavaScript's `trim`: the middle part of `s` that neither starts nor ends
   * with white space; it is empty exactly when `s` is blank.
   */
  function Trim(s: string): (r: string)
    ensures r != [] ==> !IsJsWhitespace(r[0]) && !IsJsWhitespace(r[|r| - 1])
    ensures r == [] <==> IsBlank(s)
  {
    var t := TrimStart(s);
    var start := |s| - |t|;
    assert TrimEnd(t) <= s[start..];
    TrimEnd(t)
  }

  /** `s` is its blank leading part followed by `TrimStart(s)`. */
  lemma TrimStartSplits(s: string)
    ensures var n := |s| - |TrimStart(s)|; s == s[..n] + TrimStart(s) && IsBlank(s[..n])
  {
    var n := |s| - |TrimStart(s)|;
    assert s == s[..n] + s[n..];
  }

  /** `t` is `TrimEnd(t)` followed by its blank trailing part. */
  lemma TrimEndSplits(t: string)
    ensures var m := |TrimEnd(t)|; t == TrimEnd(t) + t[m..] && IsBlank(t[m..])
  {
    var m := |TrimEnd(t)|;
    assert t == t[..m] + t[m..];
    forall k | 0 <= k < |t[m..]| ensures IsJsWhitespace(t[m..][k]) {
      assert t[m..][k] == t[m + k];
    }
  }

  /** `s` splits into a blank start, `Trim(s)` and a blank end. */
  lemma TrimSplits(s: string)
    ensures var t := TrimStart(s); var pre, post := s[..|s| - |t|], t[|Trim(s)|..];
      s == pre + (Trim(s) + post) && IsBlank(pre) && IsBlank(post)
  {
    TrimStartSplits(s);
    TrimEndSplits(TrimStart(s));
  }

  /** `trim` cuts off only white space: `s` is blank text, then `Trim(s)`, then blank text. */
  lemma TrimCutsOnlyWhitespace(s: string)
    ensures exists pre, post :: s == pre + (Trim(s) + post) && IsBlank(pre) && IsBlank(post)
  {
    TrimSplits(s);
  }

  /** What the one-shot loader hands back: the fetched list, or a failure. */
  datatype LoadOutcome = Loaded(fetched: seq<Todo>) | LoadFailed

  /** The identifier the timer runtime hands out for a scheduled callback. */
  type TimerHandle = nat

  /**
   * The root component's state slots, plus the timer runtime's queue of
   * callbacks that are scheduled and have neither fired nor been cleared.
   */
  class App {
    var todos: Option<seq<Todo>>
    var messages: seq<string>
    var input: string
    var isLoadingTodos: bool
    var isNotificationVisible: bool
    var errorTimeout: Option<TimerHandle>
    var pendingTimers: set<TimerHandle>
    var nextHandle: TimerHandle

    /**
     * No message is shown twice; the only callback that can be pending is the
     * one recorded in `errorTimeout`; the notification is visible exactly while
     * that callback is pending (so a visible notification always expires); and
     * messages are only ever held while the notification is visible.
     */
    ghost predicate Valid()
      reads this
    {
      NoDuplicates(messages) &&
      (forall h :: h in pendingTimers ==> errorTimeout == Some(h)) &&
      (errorTimeout.Some? ==> errorTimeout.value < nextHandle) &&
      (isNotificationVisible <==> pendingTimers != {}) &&
      (messages != [] ==> isNotificationVisible)
    }

    /** The list section is rendered only once loading is over and the list is non-empty. */
    predicate ListShown(): (shown: bool)
      reads this
      ensures isLoadingTodos ==> !shown
      ensures todos == None || todos == Some([]) ==> !shown
    {
      !isLoadingTodos && todos.Some? && |todos.value| > 0
    }

    /** At most one auto-dismiss timer is ever armed. */
    lemma AtMostOneTimerArmed()
      requires Valid()
      ensures |pendingTimers| <= 1
      ensures pendingTimers != {} ==> errorTimeout.Some? && pendingTimers == {errorTimeout.value}
    {
      if pendingTimers != {} {
        var h :| h in pendingTimers;
        assert pendingTimers == {h};
      }
    }

    /** The first render: nothing loaded yet, loading, no input and a hidden, empty notification. */
    constructor ()
      ensures Valid()
      ensures todos == None && messages == [] && input == "" && isLoadingTodos
      ensures !isNotificationVisible && errorTimeout == None && pendingTimers == {}
      ensures !ListShown()
    {
      todos := None;
      messages := [];
      input := "";
      isLoadingTodos := true;
      isNotificationVisible := false;
      errorTimeout := None;
      pendingTimers := {};
      nextHandle := 1;
    }

    /**
     * Raises `message`: adds it if absent, shows the notification, clears the
     * recorded timer and arms a fresh one, so exactly one timer is pending.
     */
    method ShowError(message: string)
      requires Valid()
      modifies this
      ensures Valid()
      ensures messages == AppendUnique(old(messages), message)
      ensures messages == if message in old(messages) then old(messages) else old(messages) + [message]
      ensures isNotificationVisible
      ensures errorTimeout == Some(old(nextHandle)) && pendingTimers == {old(nextHandle)}
      ensures old(pendingTimers) !! pendingTimers
      ensures todos == old(todos) && input == old(input) && isLoadingTodos == old(isLoadingTodos)
    {
      AtMostOneTimerArmed();
      messages := AppendUnique(messages, message);
      isNotificationVisible := true;
      if errorTimeout.Some? {
        pendingTimers := pendingTimers - {errorTimeout.value};
      }
      assert pendingTimers == {};
      var timeout := nextHandle;
      nextHandle := nextHandle + 1;
      pendingTimers := pendingTimers + {timeout};
      errorTimeout := Some(timeout);
    }

    /** The armed timer's callback: clears every message and hides the notification. */
    method TimerFires(h: TimerHandle)
      requires Valid()
      requires h in pendingTimers
      modifies this
      ensures Valid()
      ensures messages == [] && !isNotificationVisible && pendingTimers == {}
      ensures errorTimeout == old(errorTimeout) && nextHandle == old(nextHandle)
      ensures todos == old(todos) && input == old(input) && isLoadingTodos == old(isLoadingTodos)
    {
      AtMostOneTimerArmed();
      pendingTimers := pendingTimers - {h};
      messages := [];
      isNotificationVisible := false;
    }

    /**
     * The close button: hides the notification, clears the messages and the
     * pending timer. On an already dismissed notification it changes nothing.
     */
    method Dismiss()
      requires Valid()
      modifies this
      ensures Valid()
      ensures messages == [] && !isNotificationVisible && pendingTimers == {}
      ensures errorTimeout == old(errorTimeout) && nextHandle == old(nextHandle)
      ensures todos == old(todos) && input == old(input) && isLoadingTodos == old(isLoadingTodos)
      ensures old(messages == [] && !isNotificationVisible && pendingTimers == {}) ==> unchanged(this)
    {
      isNotificationVisible := false;
      messages := [];
      if errorTimeout.Some? {
        pendingTimers := pendingTimers - {errorTimeout.value};
      }
    }

    /** Typing in the new-todo field. */
    method ChangeInput(value: string)
      requires Valid()
      modifies this`input
      ensures Valid() && input == value
    {
      input := value;
    }

    /**
     * Submitting the new-todo form. A blank title raises the empty-title error
     * and keeps the input; any other title clears the input and the messages
     * but leaves the visibility flag and the timer as they were.
     */
    method HandleFormSubmit()
      requires Valid()
      modifies this
      ensures Valid()
      ensures todos == old(todos) && isLoadingTodos == old(isLoadingTodos)
      ensures IsBlank(old(input)) ==>
        input == old(input) &&
        messages == AppendUnique(old(messages), EmptyTitleMessage) &&
        isNotificationVisible && pendingTimers == {old(nextHandle)}
      ensures !IsBlank(old(input)) ==>
        input == "" && messages == [] &&
        isNotificationVisible == old(isNotificationVisible) &&
        errorTimeout == old(errorTimeout) && pendingTimers == old(pendingTimers)
    {
      if |Trim(input)| == 0 {
        ShowError(EmptyTitleMessage);
        return;
      }
      input := "";
      messages := [];
    }

    /**
     * The load settling: a fetched list replaces the held one, a failure keeps
     * it and raises the load error; either way loading is over.
     */
    method LoadSettled(outcome: LoadOutcome)
      requires Valid()
      modifies this
      ensures Valid()
      ensures !isLoadingTodos && input == old(input)
      ensures outcome.Loaded? ==>
        todos == Some(outcome.fetched) && messages == old(messages) &&
        isNotificationVisible == old(isNotificationVisible) && pendingTimers == old(pendingTimers) &&
        errorTimeout == old(errorTimeout) && nextHandle == old(nextHandle)
      ensures outcome.LoadFailed? ==>
        todos == old(todos) && LoadErrorMessage in messages &&
        messages == AppendUnique(old(messages), LoadErrorMessage) &&
        isNotificationVisible && errorTimeout == Some(old(nextHandle)) && pendingTimers == {old(nextHandle)}
      ensures ListShown() <==> todos.Some? && |todos.value| > 0
    {
      if outcome.Loaded? {
        todos := Some(outcome.fetched);
      } else {
        ShowError(LoadErrorMessage);
      }
      isLoadingTodos := false;
    }
  }
}
