/**
 * The chat widget's send controller (src/AIChatAssistant.tsx, handleSend).
 *
 * One send passes a gate (non-blank input, nothing in flight), a client-side
 * rate limit (a sliding one-hour window over a ledger of send timestamps, at
 * most 20 sends), assembles the request (system prompt, the last 6 prior
 * messages cut to 1000 characters, the input cut to 500), picks the model
 * round robin, and then reveals the reply one character at a time in a
 * trailing assistant message, or appends an apology when the call fails.
 *
 * The remote completion call is abstract: its outcome is a parameter. The
 * clock is the parameter `now` (milliseconds); the browser storage holding the
 * ledger is the field `ledger`.
 */
module ChatAssistant {
  import opened Options

  datatype Role = System | User | Assistant

  datatype Message = Message(role: Role, content: string)

  /** A message of the on-screen transcript: the user's or the assistant's, never the system's. */
  type ChatMessage = m: Message | m.role != System witness Message(User, [])

  /** What the completion call gave back: the first choice's content (if any), or an exception. */
  datatype Reply = Completed(content: Option<string>) | Failed

  /** What one press of Send did. */
  datatype SendOutcome =
    | Ignored
    | RateLimited
    | Requested(model: string, request: seq<Message>)

  const Models: seq<string> := ["llama-3.3-70b-versatile", "llama-3.1-8b-instant"]

  /** The rate-limit window (one hour in milliseconds) and the number of sends allowed in it. */
  const LimitWindow: int := 60 * 60 * 1000
  const MsgLimit: nat := 20

  /** Request budget: prior messages kept, characters per prior message, characters of the input. */
  const HistoryCount: nat := 6
  const HistoryChars: nat := 1000
  const InputChars: nat := 500

  const Greeting: string := "Hi! I'm Sumedh's Assistant. How can I help you today?"
  const RateLimitWarning: string := "\U{26A0}\U{FE0F} Rate limit exceeded. Please try again in an hour."
  const Fallback: string := "Connection lost."
  const Apology: string := "Brain fried. Try later or email Sumedh."

  const SystemPrompt: string :=
    "\nYou are Sumedh's AI Assistant. Always use third person (e.g., \"Sumedh is...\").\n"
    + "BIO:\n"
    + "- Sumedh Bajracharya, Sr. SE II @ GritFeat\n"
    + "- Stack: Fullstack JS, especially Next.js, NestJS, modern databases\n"
    + "- Impact: 60% faster AI streaming, 30% faster CI/CD, knows AWS,Azure\n"
    + "- Born: Kathmandu, Feb 18, 1998\n"
    + "- Education: Swarnim School, NCCS College, Tribhuvan Uni BIM, KLUST Malaysia MIT\n"
    + "- Contact: sumedhbajracharya07@gmail.com\n"
    + "Reply in max 2 sentences. Be direct and professional, some humor here and there. If unsure, share contact email.\n"

  // ---------------------------------------------------------------- send gate

  /** The characters JavaScript's `String.prototype.trim` strips: WhiteSpace and LineTerminator. */
  predicate IsJsWhitespace(c: char) {
    c == '\t' || c == '\n' || c == '\U{B}' || c == '\U{C}' || c == '\r' || c == ' '
    || c == '\U{A0}' || c == '\U{1680}' || ('\U{2000}' <= c <= '\U{200A}')
    || c == '\U{2028}' || c == '\U{2029}' || c == '\U{202F}' || c == '\U{205F}'
    || c == '\U{3000}' || c == '\U{FEFF}'
  }

  predicate IsBlank(s: string) {
    forall i :: 0 <= i < |s| ==> IsJsWhitespace(s[i])
  }

  /** The number of whitespace characters `s` starts with. */
  function LeadingBlanks(s: string): (n: nat)
    ensures n <= |s|
  {
    if s == [] || !IsJsWhitespace(s[0]) then 0 else 1 + LeadingBlanks(s[1..])
  }

  /** The number of whitespace characters `s` ends with. */
  function TrailingBlanks(s: string): (n: nat)
    ensures n <= |s|
  {
    if s == [] || !IsJsWhitespace(s[|s| - 1]) then 0 else 1 + TrailingBlanks(s[..|s| - 1])
  }

  /** LeadingBlanks counts a whitespace prefix that stops at the first other character. */
  lemma {:induction false} LeadingBlanksSpec(s: string)
    ensures forall i :: 0 <= i < LeadingBlanks(s) ==> IsJsWhitespace(s[i])
    ensures LeadingBlanks(s) == |s| || !IsJsWhitespace(s[LeadingBlanks(s)])
  {
    if s != [] && IsJsWhitespace(s[0]) {
      LeadingBlanksSpec(s[1..]);
      forall i | 1 <= i < LeadingBlanks(s) ensures IsJsWhitespace(s[i]) {
        assert s[i] == s[1..][i - 1];
      }
    }
  }

  /** TrailingBlanks counts a whitespace suffix that stops at the last other character. */
  lemma {:induction false} TrailingBlanksSpec(s: string)
    ensures forall i :: |s| - TrailingBlanks(s) <= i < |s| ==> IsJsWhitespace(s[i])
    ensures TrailingBlanks(s) == |s| || !IsJsWhitespace(s[|s| - 1 - TrailingBlanks(s)])
  {
    if s != [] && IsJsWhitespace(s[|s| - 1]) {
      var p := s[..|s| - 1];
      TrailingBlanksSpec(p);
      forall i | |s| - TrailingBlanks(s) <= i < |s| - 1 ensures IsJsWhitespace(s[i]) {
        assert s[i] == p[i];
      }
    }
  }

  /** `s.trim()`: `s` without leading and trailing whitespace; what is left starts and ends with other characters. */
  function Trim(s: string): (r: string)
    ensures |r| <= |s|
    ensures r != [] ==> !IsJsWhitespace(r[0]) && !IsJsWhitespace(r[|r| - 1])
  {
    var t := s[LeadingBlanks(s)..];
    LeadingBlanksSpec(s);
    TrailingBlanksSpec(t);
    t[..|t| - TrailingBlanks(t)]
  }

  /** `input.trim()` is empty exactly when the input consists of whitespace only. */
  lemma TrimEmptyIffBlank(s: string)
    ensures Trim(s) == [] <==> IsBlank(s)
  {
    var n := LeadingBlanks(s);
    var t := s[n..];
    LeadingBlanksSpec(s);
    TrailingBlanksSpec(t);
  }

  /** Whether the Send press goes ahead: non-blank input and neither a request nor a reveal in flight. */
  function SendEnabled(input: string, isLoading: bool, isTyping: bool): (ok: bool)
    ensures ok <==> !IsBlank(input) && !isLoading && !isTyping
  {
    TrimEmptyIffBlank(input);
    Trim(input) != [] && !isLoading && !isTyping
  }

  // ---------------------------------------------------------------- rate limit

  predicate InWindow(t: int, now: int) {
    now - t < LimitWindow
  }

  /** The timestamps of the ledger still inside the window ending at `now`, in ledger order. */
  function Recent(ledger: seq<int>, now: int): (r: seq<int>)
    ensures |r| <= |ledger|
  {
    if ledger == [] then []
    else if InWindow(ledger[0], now) then [ledger[0]] + Recent(ledger[1..], now)
    else Recent(ledger[1..], now)
  }

  /** The retained timestamps are exactly the stored ones inside the window. */
  lemma {:induction false} RecentMembers(ledger: seq<int>, now: int)
    ensures forall t :: t in Recent(ledger, now) <==> t in ledger && InWindow(t, now)
  {
    if ledger != [] {
      RecentMembers(ledger[1..], now);
      assert ledger == [ledger[0]] + ledger[1..];
    }
  }

  /** Pruning keeps the order: pruning a concatenation concatenates the pruned parts. */
  lemma {:induction false} RecentAppend(a: seq<int>, b: seq<int>, now: int)
    ensures Recent(a + b, now) == Recent(a, now) + Recent(b, now)
  {
    if a == [] {
      assert a + b == b;
    } else {
      assert (a + b)[0] == a[0];
      assert (a + b)[1..] == a[1..] + b;
      RecentAppend(a[1..], b, now);
    }
  }

  /** Pruning keeps every in-window timestamp as often as it was stored, and no other. */
  lemma {:induction false} RecentCount(ledger: seq<int>, now: int, t: int)
    ensures multiset(Recent(ledger, now))[t] == if InWindow(t, now) then multiset(ledger)[t] else 0
  {
    if ledger != [] {
      RecentCount(ledger[1..], now, t);
      assert ledger == [ledger[0]] + ledger[1..];
    }
  }

  /** A timestamp that left the window never returns to it: pruning early loses nothing a later prune keeps. */
  lemma {:induction false} RecentPrunedEarlier(ledger: seq<int>, earlier: int, now: int)
    requires earlier <= now
    ensures Recent(Recent(ledger, earlier), now) == Recent(ledger, now)
  {
    if ledger != [] {
      RecentPrunedEarlier(ledger[1..], earlier, now);
    }
  }

  /** A send at `now` is admitted when fewer than MsgLimit ledger entries are in the window. */
  predicate Admits(ledger: seq<int>, now: int) {
    |Recent(ledger, now)| < MsgLimit
  }

  /** The ledger in storage after a send attempt at `now`: written only when the send is admitted. */
  function Store(ledger: seq<int>, now: int): (r: seq<int>)
    ensures Admits(ledger, now) ==> 0 < |r| <= MsgLimit && r[|r| - 1] == now
    ensures !Admits(ledger, now) ==> r == ledger
  {
    if Admits(ledger, now) then Recent(ledger, now) + [now] else ledger
  }

  /** An admitted send stores only timestamps inside the window ending at `now`. */
  lemma StoreInWindow(ledger: seq<int>, now: int)
    requires Admits(ledger, now)
    ensures forall t :: t in Store(ledger, now) ==> InWindow(t, now)
  {
    RecentMembers(ledger, now);
  }

  // ---------------------------------------------------------------- the quota over many sends

  /** The attempt at `now`, if it is admitted. */
  function Admitted(ledger: seq<int>, now: int): seq<int> {
    if Admits(ledger, now) then [now] else []
  }

  /** A run of send attempts: what storage holds, and every attempt admitted so far, in order. */
  datatype Run = Run(ledger: seq<int>, admitted: seq<int>)

  /** One send attempt at `now`. */
  function Attempt(r: Run, now: int): Run {
    Run(Store(r.ledger, now), r.admitted + Admitted(r.ledger, now))
  }

  /** Send attempts at `times`, in order. */
  function AttemptAll(r: Run, times: seq<int>): Run
    decreases |times|
  {
    if times == [] then r else AttemptAll(Attempt(r, times[0]), times[1..])
  }

  /** Seen from a time `t` at or after `now`, one attempt adds to the window exactly what it admitted. */
  lemma StoreRecent(ledger: seq<int>, now: int, t: int)
    requires now <= t
    ensures Recent(Store(ledger, now), t) == Recent(ledger, t) + Recent(Admitted(ledger, now), t)
  {
    if Admits(ledger, now) {
      RecentAppend(Recent(ledger, now), [now], t);
      RecentPrunedEarlier(ledger, now, t);
    } else {
      assert Recent(ledger, t) + [] == Recent(ledger, t);
    }
  }

  /**
   * An attempt at or before `t` keeps storage in step with the admitted sends,
   * as far as the window ending at `t` sees them, and keeps it within MsgLimit.
   */
  lemma AttemptInStep(r: Run, now: int, t: int)
    requires now <= t
    requires |r.ledger| <= MsgLimit && Recent(r.ledger, t) == Recent(r.admitted, t)
    ensures var r' := Attempt(r, now);
      |r'.ledger| <= MsgLimit && Recent(r'.ledger, t) == Recent(r'.admitted, t)
  {
    StoreRecent(r.ledger, now, t);
    RecentAppend(r.admitted, Admitted(r.ledger, now), t);
  }

  lemma {:induction false} AttemptAllInStep(r: Run, times: seq<int>, t: int)
    requires forall i :: 0 <= i < |times| ==> times[i] <= t
    requires |r.ledger| <= MsgLimit && Recent(r.ledger, t) == Recent(r.admitted, t)
    ensures var r' := AttemptAll(r, times);
      |r'.ledger| <= MsgLimit && Recent(r'.ledger, t) == Recent(r'.admitted, t)
    decreases |times|
  {
    if times != [] {
      AttemptInStep(r, times[0], t);
      assert forall i :: 0 <= i < |times[1..]| ==> times[1..][i] <= t by {
        forall i | 0 <= i < |times[1..]| ensures times[1..][i] <= t {
          assert times[1..][i] == times[i + 1];
        }
      }
      AttemptAllInStep(Attempt(r, times[0]), times[1..], t);
    }
  }

  /**
   * The quota: starting from an empty ledger, for any run of send attempts and
   * any time `t` at or after all of them, the one-hour window ending at `t`
   * holds at most MsgLimit admitted sends.
   */
  lemma QuotaHolds(times: seq<int>, t: int)
    requires forall i :: 0 <= i < |times| ==> times[i] <= t
    ensures |Recent(AttemptAll(Run([], []), times).admitted, t)| <= MsgLimit
  {
    AttemptAllInStep(Run([], []), times, t);
  }

  // ---------------------------------------------------------------- model choice

  /** The model index after a call: the other of the two models, wrapping around. */
  function NextModelIndex(k: nat): (r: nat)
    ensures r < |Models|
    ensures k < |Models| ==> r != k
  {
    (k + 1) % |Models|
  }

  /** The models used by `n` consecutive calls, starting from model index `start`. */
  function ModelsUsed(start: nat, n: nat): (r: seq<string>)
    requires start < |Models|
    ensures |r| == n
    decreases n
  {
    if n == 0 then [] else [Models[start]] + ModelsUsed(NextModelIndex(start), n - 1)
  }

  /** Round robin: call `i` of a run uses `Models[(start + i) mod 2]`. */
  lemma {:induction false} RoundRobin(start: nat, n: nat, i: nat)
    requires start < |Models| && i < n
    ensures ModelsUsed(start, n)[i] == Models[(start + i) % |Models|]
    decreases n
  {
    if i > 0 {
      RoundRobin(NextModelIndex(start), n - 1, i - 1);
      assert (NextModelIndex(start) + (i - 1)) % 2 == (start + i) % 2;
    }
  }

  // ---------------------------------------------------------------- request assembly

  /** `s.slice(0, n)`: the first `n` characters, or all of `s` when shorter. */
  function Truncate(s: string, n: nat): (r: string)
    ensures |r| <= n && r <= s
    ensures |s| <= n ==> r == s
    ensures |s| > n ==> |r| == n
  {
    if |s| <= n then s else s[..n]
  }

  /** `s.slice(-n)`: the last `n` elements, or all of `s` when shorter. */
  function LastN<T>(s: seq<T>, n: nat): (r: seq<T>)
    ensures |r| == if |s| <= n then |s| else n
    ensures r == s[|s| - |r|..]
  {
    if |s| <= n then s else s[|s| - n..]
  }

  /**
   * A sent message stands for prior message `m`: same role, content the first
   * HistoryChars characters of `m`'s, or all of it when it fits.
   */
  predicate ClippedFrom(sent: Message, m: Message) {
    sent.role == m.role && sent.content <= m.content &&
    |sent.content| == (if |m.content| <= HistoryChars then |m.content| else HistoryChars)
  }

  /** A prior message as it is sent: same role, content cut to HistoryChars. */
  function Clip(m: Message): (r: Message)
    ensures ClippedFrom(r, m)
  {
    Message(m.role, Truncate(m.content, HistoryChars))
  }

  /**
   * The message list sent for `input`, given the transcript `prior` as it was
   * before the input was appended.
   */
  function BuildRequest(prompt: string, prior: seq<Message>, input: string): (r: seq<Message>)
    ensures |r| == 2 + (if |prior| <= HistoryCount then |prior| else HistoryCount)
    ensures |r| <= HistoryCount + 2
    ensures r[0] == Message(System, prompt)
    ensures r[|r| - 1].role == User && r[|r| - 1].content <= input
    ensures |r[|r| - 1].content| == if |input| <= InputChars then |input| else InputChars
  {
    var history := LastN(prior, HistoryCount);
    [Message(System, prompt)]
      + seq(|history|, i requires 0 <= i < |history| => Clip(history[i]))
      + [Message(User, Truncate(input, InputChars))]
  }

  /**
   * Between the system prompt and the input, the request carries the most
   * recent prior messages in transcript order, each clipped.
   */
  lemma RequestHistory(prompt: string, prior: seq<Message>, input: string)
    ensures var r := BuildRequest(prompt, prior, input);
      forall i :: 1 <= i < |r| - 1 ==> ClippedFrom(r[i], prior[|prior| - (|r| - 2) + (i - 1)])
  {
  }

  /** `content || "Connection lost."`: the text the reveal shows, never empty. */
  function RevealText(content: Option<string>): (r: string)
    ensures r != []
    ensures content.Some? && content.value != [] ==> r == content.value
    ensures content.None? || content.value == [] ==> r == Fallback
  {
    if content.Some? && content.value != [] then content.value else Fallback
  }

  function Last(s: seq<Message>): Message
    requires s != []
  {
    s[|s| - 1]
  }

  // ---------------------------------------------------------------- the component

  class Controller {
    /** The persona text sent first in every request. */
    const systemPrompt: string
    var messages: seq<ChatMessage>
    var input: string
    var modelIndex: nat
    var isLoading: bool
    var isTyping: bool
    /** The persisted rate-limit ledger (the storage entry, already decoded). */
    var ledger: seq<int>
    /** The reply being revealed and how many of its characters are shown (locals of the reveal loop). */
    var fullContent: string
    var charIndex: nat

    /**
     * The model index is a valid index; the transcript starts with the
     * greeting; at most one of "request in flight" and "reply being revealed"
     * holds; while revealing, the trailing message, after the greeting, is
     * the assistant's, showing a prefix of the reply.
     */
    ghost predicate Valid()
      reads this
    {
      modelIndex < |Models| &&
      messages != [] && messages[0] == Message(Assistant, Greeting) &&
      !(isLoading && isTyping) &&
      (isTyping ==> |messages| >= 2) &&
      (isTyping ==>
        messages != [] && charIndex <= |fullContent| &&
        Last(messages) == Message(Assistant, fullContent[..charIndex]))
    }

    /** A freshly mounted widget: the greeting, empty input, model 0, over what storage already holds. */
    constructor (stored: seq<int>)
      ensures Valid()
      ensures messages == [Message(Assistant, Greeting)] && input == [] && modelIndex == 0
      ensures !isLoading && !isTyping && ledger == stored && systemPrompt == SystemPrompt
    {
      systemPrompt := SystemPrompt;
      messages := [Message(Assistant, Greeting)];
      input := [];
      modelIndex := 0;
      isLoading := false;
      isTyping := false;
      ledger := stored;
      fullContent := [];
      charIndex := 0;
    }

    /** The input box's change handler. */
    method SetInput(text: string)
      requires Valid()
      modifies this`input
      ensures Valid() && input == text
    {
      input := text;
    }

    /**
     * handleSend up to the remote call: gate, rate limit, ledger write, user
     * message, model choice and the request to send.
     */
    method Submit(now: int) returns (outcome: SendOutcome)
      requires Valid()
      modifies this`messages, this`input, this`ledger, this`isLoading, this`modelIndex
      ensures Valid()
      ensures isTyping == old(isTyping) && fullContent == old(fullContent) && charIndex == old(charIndex)
      ensures !SendEnabled(old(input), old(isLoading), old(isTyping)) ==>
        outcome == Ignored && messages == old(messages) && input == old(input) &&
        ledger == old(ledger) && modelIndex == old(modelIndex) && isLoading == old(isLoading)
      ensures SendEnabled(old(input), old(isLoading), old(isTyping)) && !Admits(old(ledger), now) ==>
        outcome == RateLimited &&
        messages == old(messages) + [Message(User, old(input)), Message(Assistant, RateLimitWarning)] &&
        input == [] && ledger == old(ledger) && modelIndex == old(modelIndex) && !isLoading
      ensures SendEnabled(old(input), old(isLoading), old(isTyping)) && Admits(old(ledger), now) ==>
        outcome == Requested(Models[old(modelIndex)], BuildRequest(systemPrompt, old(messages), old(input))) &&
        messages == old(messages) + [Message(User, old(input))] &&
        input == [] && isLoading &&
        ledger == Recent(old(ledger), now) + [now] &&
        modelIndex == NextModelIndex(old(modelIndex))
      ensures outcome.Requested? ==> |ledger| <= MsgLimit && forall t :: t in ledger ==> InWindow(t, now)
    {
      if !SendEnabled(input, isLoading, isTyping) {
        return Ignored;
      }
      if !Admits(ledger, now) {
        Refuse();
        return RateLimited;
      }
      outcome := Admit(now);
    }

    /** A send over the limit: the user's message and the warning are shown, the input is cleared. */
    method Refuse()
      requires Valid() && !isLoading && !isTyping
      modifies this`messages, this`input
      ensures Valid()
      ensures messages == old(messages) + [Message(User, old(input)), Message(Assistant, RateLimitWarning)]
      ensures input == []
    {
      messages := messages + [Message(User, input), Message(Assistant, RateLimitWarning)];
      input := [];
    }

    /**
     * An admitted send up to the remote call: the ledger is written, the
     * user's message shown, loading starts, and the request goes to the
     * current model while the index moves on.
     */
    method Admit(now: int) returns (outcome: SendOutcome)
      requires Valid() && !isLoading && !isTyping && Admits(ledger, now)
      modifies this`messages, this`input, this`ledger, this`isLoading, this`modelIndex
      ensures Valid()
      ensures outcome == Requested(Models[old(modelIndex)], BuildRequest(systemPrompt, old(messages), old(input)))
      ensures messages == old(messages) + [Message(User, old(input))] && input == [] && isLoading
      ensures ledger == Recent(old(ledger), now) + [now] && modelIndex == NextModelIndex(old(modelIndex))
      ensures |ledger| <= MsgLimit && forall t :: t in ledger ==> InWindow(t, now)
    {
      ledger := Recent(ledger, now) + [now];
      StoreInWindow(old(ledger), now);
      var sent := input;
      var prior := messages;
      messages := messages + [Message(User, sent)];
      input := [];
      isLoading := true;
      var currentModel := Models[modelIndex];
      modelIndex := NextModelIndex(modelIndex);
      outcome := Requested(currentModel, BuildRequest(systemPrompt, prior, sent));
    }

    /**
     * The remote call settles. On success the reply text is fixed, an empty
     * assistant message is appended and the first character revealed at once;
     * on failure the apology is appended after everything already there.
     */
    method Complete(reply: Reply)
      requires Valid() && isLoading
      modifies this
      ensures Valid() && !isLoading
      ensures input == old(input) && ledger == old(ledger) && modelIndex == old(modelIndex)
      ensures reply.Failed? ==>
        !isTyping && messages == old(messages) + [Message(Assistant, Apology)]
      ensures reply.Completed? ==>
        isTyping && fullContent == RevealText(reply.content) && charIndex == 1 &&
        messages == old(messages) + [Message(Assistant, fullContent[..1])]
    {
      if reply.Failed? {
        isLoading := false;
        messages := messages + [Message(Assistant, Apology)];
        return;
      }
      fullContent := RevealText(reply.content);
      isLoading := false;
      isTyping := true;
      ghost var prior := messages;
      messages := messages + [Message(Assistant, [])];
      charIndex := 0;
      assert messages[0] == prior[0] && Last(messages) == Message(Assistant, fullContent[..0]);
      TypeNextChar();
    }

    /** One tick of the reveal timer: show one more character, or stop when all are shown. */
    method TypeNextChar()
      requires Valid() && isTyping
      modifies this`messages, this`charIndex, this`isTyping
      ensures Valid()
      ensures |messages| == |old(messages)| && messages[..|messages| - 1] == old(messages)[..|messages| - 1]
      ensures old(charIndex) < |fullContent| ==>
        isTyping && charIndex == old(charIndex) + 1 &&
        Last(messages) == Message(Assistant, fullContent[..charIndex])
      ensures old(charIndex) == |fullContent| ==>
        !isTyping && messages == old(messages) && charIndex == old(charIndex)
    {
      if charIndex < |fullContent| {
        var lastMsg := messages[|messages| - 1];
        if lastMsg.role == Assistant {
          messages := messages[..|messages| - 1] + [Message(Assistant, fullContent[..charIndex + 1])];
        }
        charIndex := charIndex + 1;
      } else {
        isTyping := false;
      }
    }

    /** The timer chain run to its end: the trailing message shows the whole reply. */
    method FinishReveal()
      requires Valid() && isTyping
      modifies this`messages, this`charIndex, this`isTyping
      ensures Valid() && !isTyping && charIndex == |fullContent|
      ensures messages == old(messages)[..|old(messages)| - 1] + [Message(Assistant, fullContent)]
    {
      while isTyping
        invariant Valid()
        invariant |messages| == |old(messages)| && messages[..|messages| - 1] == old(messages)[..|messages| - 1]
        invariant charIndex <= |fullContent| && Last(messages) == Message(Assistant, fullContent[..charIndex])
        invariant !isTyping ==> charIndex == |fullContent|
        decreases |fullContent| - charIndex + (if isTyping then 1 else 0)
      {
        TypeNextChar();
      }
      assert fullContent[..charIndex] == fullContent;
      assert messages == messages[..|messages| - 1] + [Last(messages)];
    }

    /**
     * The remote call settles and, on success, the reveal runs to its end: the
     * transcript gains exactly one assistant message, the whole reply text or
     * the apology.
     */
    method Settle(reply: Reply)
      requires Valid() && isLoading
      modifies this
      ensures Valid() && !isLoading && !isTyping
      ensures input == old(input) && ledger == old(ledger) && modelIndex == old(modelIndex)
      ensures messages == old(messages) +
        [Message(Assistant, if reply.Failed? then Apology else RevealText(reply.content))]
    {
      Complete(reply);
      if isTyping {
        ghost var shown := messages;
        FinishReveal();
        assert shown[..|shown| - 1] == old(messages);
      }
    }

    /**
     * One send with nothing interleaved: the phases above in sequence. An
     * admitted send ends idle with the user's message followed by exactly one
     * assistant message, the whole reply or the apology.
     */
    method HandleSend(now: int, reply: Reply) returns (outcome: SendOutcome)
      requires Valid()
      modifies this
      ensures Valid()
      ensures outcome != Ignored ==> ledger == Store(old(ledger), now)
      ensures outcome == Ignored <==> !SendEnabled(old(input), old(isLoading), old(isTyping))
      ensures outcome.Requested? <==> SendEnabled(old(input), old(isLoading), old(isTyping)) && Admits(old(ledger), now)
      ensures outcome == RateLimited <==> SendEnabled(old(input), old(isLoading), old(isTyping)) && !Admits(old(ledger), now)
      ensures outcome == Ignored ==>
        messages == old(messages) && input == old(input) && ledger == old(ledger) &&
        modelIndex == old(modelIndex) && isLoading == old(isLoading) && isTyping == old(isTyping)
      ensures outcome == Ignored ==> fullContent == old(fullContent) && charIndex == old(charIndex)
      ensures outcome != Ignored ==> !isLoading && !isTyping && input == []
      ensures outcome == RateLimited ==>
        messages == old(messages) + [Message(User, old(input)), Message(Assistant, RateLimitWarning)]
      ensures outcome == RateLimited ==> modelIndex == old(modelIndex)
      ensures outcome.Requested? ==>
        outcome.model == Models[old(modelIndex)] && modelIndex == NextModelIndex(old(modelIndex)) &&
        outcome.request == BuildRequest(systemPrompt, old(messages), old(input))
      ensures outcome.Requested? && reply.Completed? ==>
        messages == old(messages) + [Message(User, old(input)), Message(Assistant, RevealText(reply.content))]
      ensures outcome.Requested? && reply.Failed? ==>
        messages == old(messages) + [Message(User, old(input)), Message(Assistant, Apology)]
    {
      ghost var enabled := SendEnabled(input, isLoading, isTyping);
      ghost var admits := Admits(ledger, now);
      outcome := Submit(now);
      assert outcome.Requested? <==> enabled && admits;
      assert outcome == RateLimited <==> enabled && !admits;
      if outcome.Requested? {
        Settle(reply);
      }
    }
  }
}
