# Portfolio site logic, modelled in Dafny

This project models the three pieces of behaviour in the portfolio site that are more than rendering:

- **The chat widget's send controller** (`src/AIChatAssistant.tsx`, `handleSend`). It is modelled as the class `ChatAssistant.Controller`, with the component state as fields: `messages`, `input`, `modelIndex`, `isLoading`, `isTyping`, and the rate-limit `ledger` of millisecond timestamps. One send goes through these steps:
  - a send gate (the input is not blank and nothing is in flight);
  - a sliding one-hour rate limit of 20 sends;
  - a write of the pruned ledger plus `now`;
  - a round-robin choice between the two models;
  - assembly of the request (the system prompt, the last 6 prior messages cut to 1000 characters, then the input cut to 500);
  - either a character-by-character reveal of the reply in one trailing assistant message, or a fixed apology when the call fails.

  `handleSend` is split where the source waits: `Submit` runs up to the remote call (the gate, then `Refuse` for a send over the limit or `Admit` for an admitted one), `Complete` handles the call settling, `TypeNextChar` is one tick of the reveal timer, and `FinishReveal` is the timer chain run to its end. `Settle` is `Complete` followed by `FinishReveal`, and `HandleSend` is `Submit` followed by `Settle`, with nothing in between.
- **The card stack** (`src/CardSwap.tsx`). The stack order is a permutation of `0..n-1`. `bringToFront` is the method `CardSwap.CardStack.BringToFront`. It moves the clicked card to the front, keeps the other cards in their relative order, and schedules one move per stack position to the slot `makeSlot` computes. The order itself is committed only when the animation timeline completes (`CompleteTimeline`). Starting a new reorder kills the previous timeline, so the previous commit never happens.
- **The tab navigation** (`src/App.js`). `activeTab` starts at 1. ArrowDown advances it from tabs 1-4, ArrowUp goes back from tabs 2-5, and the five nav items set it directly. The tab selects the page class `nm8-k`.

The main results proved about the model:
- `QuotaHolds`: starting from an empty ledger, for any time `t` at or after every attempt, the hour ending at `t` holds at most 20 admitted sends. Timestamps later than `now` are kept by the window filter, so a clock that moves backwards is outside this statement.
- `Controller.Submit` states each branch of the gate and of the rate limit. For an admitted send, the stored ledger is the pruned ledger followed by `now`. The request has the stated shape, and the model index advances round robin. The controller's invariant keeps the greeting as the first message of the transcript.
- `Controller.FinishReveal` / `HandleSend`: the revealed text ends equal to the reply, or to `"Connection lost."` when the reply is empty. A failed call appends exactly one apology.
- `FrontIsPermutation`, `FrontMovesOnlyClicked`, `FrontIdempotent`, `FrontOfFront`: reordering keeps a permutation and moves only the clicked card. Doing it twice is the same as once, and it is a no-op for the card already in front.
- `RunInRange`: the active tab stays in 1..5 under every sequence of key presses and clicks.

The chat widget modelled limits sends to 20 per hour only; there is no daily ceiling, and the ledger keeps only the last hour. A reply is a single completion revealed on a timer: there is no streaming and no web-search tool call. A failed call leaves no partial assistant message, because the empty assistant message is appended only after the call succeeds.

One behaviour of the card stack is stated separately (`ClickCommittedFront`). A click is compared with the committed order, not with the order a running timeline is about to commit. So a click on the committed front card while another card's reorder is still animating only reports the click, and that other card ends in front.

## Model

| member | source | states |
|---|---|---|
| ChatAssistant.Trim | src/AIChatAssistant.tsx:67 | `trim()` is never longer than its input, and a non-empty result starts and ends with a character that is not JavaScript whitespace |
| ChatAssistant.SendEnabled | src/AIChatAssistant.tsx:67 | a send goes ahead exactly when the input is not all whitespace and neither a request nor a reveal is in flight |
| ChatAssistant.TrimEmptyIffBlank | src/AIChatAssistant.tsx:67 | `input.trim()` is empty exactly when every character is JavaScript whitespace (both directions) |
| ChatAssistant.LeadingBlanksSpec | src/AIChatAssistant.tsx:67 | the leading run trim removes is all whitespace and stops at the first other character |
| ChatAssistant.TrailingBlanksSpec | src/AIChatAssistant.tsx:67 | the trailing run trim removes is all whitespace and stops at the last other character |
| ChatAssistant.InWindow | src/AIChatAssistant.tsx:71-76 | a timestamp is in the window when it is less than one hour (3 600 000 ms) before `now` |
| ChatAssistant.Recent | src/AIChatAssistant.tsx:76 | the pruned ledger is never longer than the stored one |
| ChatAssistant.RecentMembers | src/AIChatAssistant.tsx:76 | a timestamp is retained exactly when it is stored and `now - t` is under one hour |
| ChatAssistant.RecentCount | src/AIChatAssistant.tsx:76 | each in-window timestamp is retained as many times as it is stored; the others not at all |
| ChatAssistant.RecentAppend | src/AIChatAssistant.tsx:76 | pruning keeps the stored order: pruning a concatenation concatenates the pruned parts |
| ChatAssistant.RecentPrunedEarlier | src/AIChatAssistant.tsx:71-76 | pruning at an earlier time and then at `now` is the same as pruning at `now` |
| ChatAssistant.Admits | src/AIChatAssistant.tsx:72-78 | a send is admitted when fewer than 20 stored timestamps are in the window |
| ChatAssistant.Store | src/AIChatAssistant.tsx:78-88 | storage changes only for an admitted send; then it holds at most 20 entries and ends with `now` |
| ChatAssistant.StoreInWindow | src/AIChatAssistant.tsx:88 | after an admitted send every stored timestamp is inside the hour window of `now` |
| ChatAssistant.StoreRecent | src/AIChatAssistant.tsx:74-88 | seen from any later time, one attempt adds to the window exactly the send it admitted |
| ChatAssistant.AttemptInStep | src/AIChatAssistant.tsx:74-88 | one attempt keeps storage within 20 entries and in step with the admitted sends |
| ChatAssistant.AttemptAllInStep | src/AIChatAssistant.tsx:74-88 | any run of attempts keeps storage within 20 entries and in step with the admitted sends |
| ChatAssistant.QuotaHolds | src/AIChatAssistant.tsx:71-88 | from an empty ledger, the hour window ending at or after every attempt holds at most 20 admitted sends |
| ChatAssistant.NextModelIndex | src/AIChatAssistant.tsx:97 | the advanced model index is a valid index into the two models, and a different one from a valid index |
| ChatAssistant.ModelsUsed | src/AIChatAssistant.tsx:96-97 | the models of `n` consecutive calls from index `start`: exactly `n` of them, each call advancing the index |
| ChatAssistant.RoundRobin | src/AIChatAssistant.tsx:96-97 | call `i` of consecutive calls uses `MODELS[(start + i) mod 2]` |
| ChatAssistant.Truncate | src/AIChatAssistant.tsx:102-103 | `slice(0, n)` is a prefix of at most `n` characters, the whole string when it fits, exactly `n` otherwise |
| ChatAssistant.Clip | src/AIChatAssistant.tsx:102 | a prior message is sent with its role and exactly the first `min(1000, len)` characters of its content |
| ChatAssistant.LastN | src/AIChatAssistant.tsx:102 | `slice(-n)` is the suffix of length `min(n, len)` |
| ChatAssistant.BuildRequest | src/AIChatAssistant.tsx:100-104 | the request is the system prompt, then `min(6, len)` prior messages, then the input as a user message cut to 500 characters; at most 8 entries |
| ChatAssistant.RequestHistory | src/AIChatAssistant.tsx:102 | the middle entries are the most recent prior messages, in order, with the same role and content cut to exactly its first `min(1000, len)` characters |
| ChatAssistant.RevealText | src/AIChatAssistant.tsx:110 | the text to reveal is never empty: a missing or empty completion becomes "Connection lost.", any other content is kept |
| ChatAssistant.Controller.constructor | src/AIChatAssistant.tsx:42-49 | a new widget shows the greeting, has empty input, model index 0, nothing in flight, and the ledger storage already holds |
| ChatAssistant.Controller.SetInput | src/AIChatAssistant.tsx:262 | typing replaces the input and nothing else |
| ChatAssistant.Controller.Submit | src/AIChatAssistant.tsx:66-104 | a blank input or a send in flight changes nothing. With 20 or more sends in the window: the user message and the warning are appended, the input is cleared, storage and model index are unchanged. Otherwise: storage becomes the pruned ledger plus `now` (at most 20 entries, all in the window), the user message is appended, the input is cleared, loading starts, the request is built from the transcript before the append, and the model is `MODELS[modelIndex]` with the index advanced to `NextModelIndex` |
| ChatAssistant.Controller.Refuse | src/AIChatAssistant.tsx:78-86 | a send over the limit appends the user message and the warning after the existing transcript and clears the input; nothing else changes |
| ChatAssistant.Controller.Admit | src/AIChatAssistant.tsx:88-104 | an admitted send writes the pruned ledger plus `now` (at most 20 entries, all in the window), appends the user message, clears the input, starts loading, and requests `BuildRequest` of the transcript and input before the send from `MODELS[modelIndex]`, advancing the index |
| ChatAssistant.Controller.Complete | src/AIChatAssistant.tsx:108-146 | loading ends. On failure exactly one apology is appended after the existing messages. On success the reveal starts: an assistant message showing the first character of the reply text is appended |
| ChatAssistant.Controller.TypeNextChar | src/AIChatAssistant.tsx:120-138 | one tick sets the trailing assistant message to `fullContent[..charIndex+1]` and advances `charIndex`, or stops typing when all characters are shown; earlier messages are untouched |
| ChatAssistant.Controller.FinishReveal | src/AIChatAssistant.tsx:118-140 | the reveal ends with typing off and the trailing message equal to the whole reply text |
| ChatAssistant.Controller.Settle | src/AIChatAssistant.tsx:108-146 | the call settling plus the whole reveal: loading and typing end, input, storage and model index are unchanged, and exactly one assistant message is appended, the apology on failure or the whole reply text (`"Connection lost."` for an empty one) |
| ChatAssistant.Controller.HandleSend | src/AIChatAssistant.tsx:66-147 | ignored exactly when the gate fails; an ignored send changes nothing, including a reveal in progress (its reply text and position). A send that passes the gate is `Requested` exactly when it is admitted and `RateLimited` exactly when it is not. A rate-limited send appends the user message and the warning and keeps the model index. An admitted send writes the ledger, sends the request built from the transcript and input before the send to `MODELS[modelIndex]`, advances the model index, and ends idle with the user message followed by exactly one assistant message: the whole reply text, or the apology |
| CardSwap.MakeSlot | src/CardSwap.tsx:55-60 | every slot lies on one line through the origin, with z falling by 1.5 per unit of x, and its z-index counts the card's own position and the positions behind it |
| CardSwap.FrontSlot | src/CardSwap.tsx:55-60 | stack position 0 sits at the origin with z-index `total` |
| CardSwap.ZIndexDecreasing | src/CardSwap.tsx:55-60 | z-index strictly decreases with stack position and stays positive within the stack; position 0 has the top z-index |
| CardSwap.EvenSpacing | src/CardSwap.tsx:55-60 | successive positions step by `(dx, -dy, -1.5 dx)` and lose one z-index |
| CardSwap.Identity | src/CardSwap.tsx:115 | the initial order is a permutation of `0..n-1` with card `k` at position `k` |
| CardSwap.Without | src/CardSwap.tsx:130 | the filter keeps exactly the other cards and is never longer |
| CardSwap.WithoutAppend | src/CardSwap.tsx:130 | the filter keeps the relative order of the cards it keeps |
| CardSwap.PermutationContains | src/CardSwap.tsx:130 | every card `0..n-1` occurs in a permutation (pigeonhole), so the clicked card is in the order |
| CardSwap.Front | src/CardSwap.tsx:130 | the new order starts with the clicked card and holds exactly the clicked card and the cards of the old order |
| CardSwap.FrontIsPermutation | src/CardSwap.tsx:130 | the new order is again a permutation of `0..n-1`, with the clicked card first |
| CardSwap.FrontMovesOnlyClicked | src/CardSwap.tsx:130 | the new order is the clicked card followed by the cards before it and then the cards after it, all as they were |
| CardSwap.FrontOfFront | src/CardSwap.tsx:124-130 | for the card already in front the reorder formula gives the same order, so skipping it changes nothing |
| CardSwap.FrontIdempotent | src/CardSwap.tsx:124-130 | bringing the same card to the front twice gives the order of doing it once |
| CardSwap.ScheduleMoves | src/CardSwap.tsx:133-150 | for every position `i < total`, the move scheduled at `i * 0.05` s takes card `newOrder[i]` to `makeSlot(i, ...)` |
| CardSwap.CardStack.constructor | src/CardSwap.tsx:79-115 | the initial order is the identity permutation and no commit is pending; the spacing defaults to 60 and 70 as the props do |
| CardSwap.CardStack.BringToFront | src/CardSwap.tsx:120-157 | the committed order is not changed. For the front card: only `onCardClick`, nothing scheduled, and any pending commit kept. Otherwise: `onFrontChange` then `onCardClick`, the pending commit replaced by the new order, and one move per position to its slot |
| CardSwap.CardStack.CompleteTimeline | src/CardSwap.tsx:151-153 | the timeline's final callback commits the pending order, if any |
| CardSwap.ClickAndSettle | src/CardSwap.tsx:120-157 | a click followed by the timeline's end leaves the reordered permutation committed, with the clicked card in front; this holds whatever timeline was running, unless the clicked card is the committed front while a reorder is pending |
| CardSwap.ClickCommittedFront | src/CardSwap.tsx:120-157 | a click on the committed front card while another reorder is pending only reports the click; the pending order is then committed and a different card is in front |
| TabNavigation.TabOf | src/App.js:54-73 | each nav item sets a tab in 1..5 |
| TabNavigation.TabOfRoundTrip | src/App.js:54-73 | nav items and tabs 1..5 correspond one to one |
| TabNavigation.NextTab | src/App.js:16-31 | ArrowDown adds one exactly from tabs 1-4, ArrowUp subtracts one exactly from tabs 2-5; otherwise, and for any other key, the tab is unchanged |
| TabNavigation.EdgesStay | src/App.js:18-27 | ArrowDown on tab 5 and ArrowUp on tab 1 change nothing |
| TabNavigation.DownUpInverse | src/App.js:18-27 | ArrowDown then ArrowUp returns to tabs 1-4; ArrowUp then ArrowDown returns to tabs 2-5 |
| TabNavigation.Step | src/App.js:16-73 | any key press or click keeps a tab in 1..5; a click sets the item's tab |
| TabNavigation.Run | src/App.js:14-73 | the active tab after a sequence of key presses and clicks, each handled by `Step` in order |
| TabNavigation.RunInRange | src/App.js:12-73 | from a tab in range, in particular the initial tab 1, every sequence of events keeps the tab in 1..5 |
| TabNavigation.RunEndsWithClick | src/App.js:54-73 | a click at the end of any event sequence decides the tab |
| TabNavigation.PageClass | src/App.js:38 | tab `k` in 1..5 selects class `"nm8-k"`; any other value selects `""` |
| TabNavigation.PageClassInjective | src/App.js:38 | distinct tabs select distinct page classes |
| TabNavigation.NavItemClass | src/App.js:54-73 | the item for the current tab carries the "active " prefix on the base classes; every other item carries only the base classes |
| TabNavigation.ExactlyOneActive | src/App.js:54-73 | for a tab in range exactly one nav item is shown active |
| TabNavigation.TabState.constructor | src/App.js:12 | the active tab starts at 1 |
| TabNavigation.TabState.KeyDown | src/App.js:16-31 | the key handler sets the tab to `NextTab` of the old tab and keeps it in 1..5 |
| TabNavigation.TabState.Click | src/App.js:54-73 | a nav click sets the tab to the item's tab |

## Left out

- The remote completion call is not modelled: the SDK client, the API key, the model parameters `max_tokens` and `temperature`, and the network. Its outcome is the `Reply` parameter of `Complete` / `HandleSend`.
- `localStorage` and JSON (de)serialisation of the ledger are not modelled. The ledger is the field `ledger: seq<int>`. A stored value that is not an array of numbers is not modelled.
- The ledger changes only through this controller. The source reads storage again on every send, so sends from another open tab of the site also count toward the limit; that sharing is not modelled.
- `Date.now()` is the parameter `now`. The random 10-30 ms reveal delays and the timer cleanup on unmount are timing only; `TypeNextChar` is one timer tick.
- React's batching of state updates and stale render closures are not modelled. Each event is taken to see the state left by the previous one. Only the request assembly reads the transcript as it was before the user message was appended, as the source does. Two key presses handled by the same render of `App.js` are not modelled.
- ChatAssistant.Controller.TypeNextChar: the source mutates the last message object in place, an object shared with the previous state array. The model replaces the last element of a value sequence, so that aliasing is not captured.
- ChatAssistant.Controller.Complete / TypeNextChar: the model applies each message update when it is issued. In the source the update reads `charIndex` when React applies it, which can be after the following `charIndex++`: with batched updates the first render already shows two characters, and a later tick can run one character ahead. The shown text is still a prefix of the reply and ends equal to it.
- ChatAssistant.Truncate: lengths are counted in Unicode characters. JavaScript's `slice` counts UTF-16 code units, so the two differ for characters outside the Basic Multilingual Plane. The same holds for BuildRequest and TypeNextChar.
- CardSwap.MakeSlot uses exact real arithmetic, not IEEE floating point.
- CardSwap.ClickAndSettle: does not promise the clicked card ends in front when it is the committed front card while another reorder is pending. The source does not bring it to front then, and `ClickCommittedFront` states what happens instead.
- CardSwap.CardStack.BringToFront requires `0 <= clicked < total`. The source's own click handlers always pass such an index. Any other index makes the source read an undefined card reference and fail, and that path is not modelled.
- CardSwap.CardStack.BringToFront skips nothing. The source skips (`continue`) a card whose DOM element is not mounted; DOM mounting is not modelled.
- The gsap easing, the move durations, the initial `placeNow` effect, and all JSX rendering and animation are not modelled.
- TabNavigation.NavItemClass does not state the exact class strings, only the "active " prefix and the shared base classes. The HOME item's extra "nm8-link" class is in the definition but not in the contract.
- Logging is not modelled: `console.log('default')` for other keys (src/App.js:29) and `console.error` of the failure (src/AIChatAssistant.tsx:143). Neither changes state.
- src/App.tsx (scroll navigation, progress indicator), src/components/Container.js and src/components/Background.js are rendering and animation only. They are not part of this model.
