# Company Research Assistant — verified model of the plan parser, the conversation store and the client state updates

The Company Research Assistant has two parts. An Express server asks a
language model for company research and for a ten-section account plan. A
React single-page client shows the results, keeps a research history and
lets the user edit plan sections. This project models the parts of both
that have their own logic. The model calls are left out; a reply is a
parameter.

- **Plan parser** (`PlanParser`). `ResearchAgent.parseAccountPlan` splits
  the generated plan on newlines. It then scans the lines with a small state
  machine: the open section, a buffer of lines, and the sections stored so
  far. It is modelled three times, and each version is proved equal to the
  next:
  - `ParseAccountPlan` is an imperative method with the source's two loops;
  - `Scan`/`Parse` replay those loops one line at a time;
  - `Group`/`Assemble` cut the lines at headers into a preamble and segments,
    then store each segment's body under its title.

  The properties of the parse are proved on the last form.
- **Plan document** (`PlanSections`). A JavaScript object iterates its keys
  in insertion order, so the `sections` object is an association list in
  that order. `Put` is `obj[key] = value`.
- **Conversations** (`Conversations`). This covers the server's in-memory
  `conversations` map and the conversion of a client-supplied history into
  LangChain messages. The map is the field of the `ConversationStore` class.
  `Chat` is `POST /api/chat` and `GetConversation` is
  `GET /api/conversation/:id`.
- **Client state** (`AppState`). This covers the `App` component's state
  updaters:
  - the section merge;
  - prepending a research entry and attaching a generated plan to it;
  - the guards before plan generation and voice input;
  - the sentence-picking loop of the quick snapshot;
  - the company initial;
  - the theme switch;
  - the expanded-entry flags.
- **JavaScript strings** (`JsText`). These are the string built-ins the code
  relies on:
  - `trim`, using ECMAScript white space and line terminators;
  - `includes`;
  - `split` and `join`;
  - `length`, counted in UTF-16 code units.

JavaScript truthiness of a possibly missing string is `Common.Truthy`:
`undefined`/`null` is `None`, and the empty string is falsy.

## Model

| member | source | states |
|---|---|---|
| PlanParser.ParseAccountPlan | company-research-assistant/server/server.js:232-285 | The loops compute exactly `Parse(planText)`, and `fullText` is the input string verbatim. |
| PlanParser.ScanLine | company-research-assistant/server/server.js:253-272 | One pass of the loop body, including the inner title loop with its `break`, performs exactly one `Step`: a header stores the open section and opens an empty one; any other line is buffered untrimmed if a section is open, and dropped otherwise. |
| PlanParser.ParseWith | company-research-assistant/server/server.js:248-284 | The parse against a list of titles keeps the input verbatim as `fullText`; every section key is one of the titles, and no key repeats. |
| PlanParser.Parse | company-research-assistant/server/server.js:232-285 | The server's parse keeps `fullText` verbatim; every key is one of the ten canonical titles, and no key repeats. |
| PlanParser.FirstMatch | company-research-assistant/server/server.js:257-267 | Returns no index iff no title is contained in the line; otherwise it returns an index whose title is contained and whose predecessors in list order are not. |
| PlanParser.HeaderOf | company-research-assistant/server/server.js:254-258 | A line is a header iff its trimmed text contains some title, and the title it opens is one of the titles. Matching uses the trimmed line. |
| PlanParser.HeaderOfFirst | company-research-assistant/server/server.js:256-267 | When the trimmed line contains several titles, the header opens the first of them in list order. |
| PlanParser.GroupCovers | company-research-assistant/server/server.js:250-274 | Preamble, headers and bodies together are the split lines, in order: no line is lost or repeated. |
| PlanParser.GroupWellFormed | company-research-assistant/server/server.js:253-274 | No header line is in the preamble or in any section body, and each segment's header line opens that segment's title. |
| PlanParser.GroupUnique | company-research-assistant/server/server.js:253-274 | Any well-formed grouping that covers the lines is the one `Group` computes, so the cut at headers is determined by the lines. |
| PlanParser.ScanFollowsGroup | company-research-assistant/server/server.js:250-272 | After any prefix of lines, the loop state has the last segment open with its body buffered, and every earlier segment stored. |
| PlanParser.ParseIsAssembly | company-research-assistant/server/server.js:250-279 | The parsed sections are the segments stored in order, each under its title, with its body joined by newlines and trimmed. The preamble goes nowhere. |
| PlanParser.AssembleKeys | company-research-assistant/server/server.js:258-278 | Section keys are the segment titles in first-encounter order, with repeats dropped. |
| PlanParser.AssembleDistinct | company-research-assistant/server/server.js:258-278 | Storing the segments in order never makes a key appear twice. |
| PlanParser.AssembleLookup | company-research-assistant/server/server.js:258-278 | A title's value is the joined and trimmed body of its last segment; a title no header opened has no value. |
| PlanParser.ParseSections | company-research-assistant/server/server.js:248-279 | Keys are the header titles of the input, deduplicated in first-seen order. The value of each title is its last occurrence's body. |
| PlanParser.ParseSectionsBound | company-research-assistant/server/server.js:235-264 | Because keys are distinct titles, a parse has no more sections than there are titles. |
| PlanParser.ParseSectionsAtMostTen | company-research-assistant/server/server.js:235-264 | The server's parse has at most 10 sections. |
| PlanParser.ParseEmptyIffNoTitle | company-research-assistant/server/server.js:248-279 | `sections` is empty iff no trimmed line contains any title. |
| PlanParser.ParseCanonicalPlan | company-research-assistant/server/server.js:235-284 | A plan whose header lines name the ten titles once each, in order, parses to exactly those ten keys in canonical order. |
| PlanParser.DedupMembers | company-research-assistant/server/server.js:262 | The first-seen order of titles holds exactly the titles met, each once. |
| PlanSections.Keys | company-research-assistant/server/server.js:262 | `Object.keys(sections)`: one key per entry, the entries' titles in order. |
| PlanSections.Lookup | company-research-assistant/server/server.js:262 | `sections[key]`: undefined iff the key is not among the keys; otherwise the body of the first entry with that title. |
| PlanSections.Put | company-research-assistant/server/server.js:262 | After `sections[key] = value`, the key reads the value and every other key reads as before. |
| PlanSections.PutKeys | company-research-assistant/server/server.js:262 | Storing a key keeps an existing key in its place and adds a new key last. |
| PlanSections.PutKeepsDistinct | company-research-assistant/server/server.js:262 | Storing a key never makes a key appear twice. |
| PlanSections.PutPut | company-research-assistant/server/server.js:262 | Storing a key twice equals storing only the second value. |
| PlanSections.PutSwap | company-research-assistant/src/App.jsx:230-236 | Two existing, different keys may be stored in either order with the same result, key order included. |
| Conversations.ToLangChain | company-research-assistant/server/server.js:151-156 | One entry keeps its content; its kind is `system` or `assistant` for those roles, and human (role `user`) for `user` and any other role. |
| Conversations.ConvertToLangChainMessages | company-research-assistant/server/server.js:150-157 | One message per entry, in order, with the same content. It is a system message iff the role is `system`, an AI message iff `assistant`, and a human message for `user` and every other role. |
| Conversations.ConvertRoundTrip | company-research-assistant/server/server.js:150-157 | With the three known roles the conversion is lossless: reading the roles back gives the original history. |
| Conversations.ConvertConcat | company-research-assistant/server/server.js:150-157 | Converting a concatenated history converts each part in place (`map` is order-preserving). |
| Conversations.Lookup | company-research-assistant/server/server.js:449 | A stored id reads as its stored log; an id not in the map reads as an empty log. |
| Conversations.Recorded | company-research-assistant/server/server.js:374-381 | The id's log is extended by exactly the user message and then the assistant reply; every other id's log is unchanged; the id becomes a key. |
| Conversations.RecordedKeepsAlternating | company-research-assistant/server/server.js:374-381 | Logging an exchange keeps every log a user/assistant alternation of even length. |
| Conversations.StoredLogConverts | company-research-assistant/server/server.js:150-157 | A stored log sent back as history converts to alternating human and AI messages with the same contents. |
| Conversations.ConversationStore.constructor | company-research-assistant/server/server.js:51 | The store starts empty. |
| Conversations.ConversationStore.Append | company-research-assistant/server/server.js:375-381 | The map becomes `Recorded(old map, id, message, reply)`, and every log still alternates. |
| Conversations.ConversationStore.Chat | company-research-assistant/server/server.js:366-388 | A falsy message is a 400 `Message is required` and nothing changes. A failed model call is a 500 with the wrapped error message and nothing changes. Otherwise the reply is returned with role `assistant`, and the exchange is logged iff the conversation id is truthy. |
| Conversations.ConversationStore.GetConversation | company-research-assistant/server/server.js:447-451 | Returns the stored log, or empty for an unseen id; it always alternates user and assistant. |
| AppState.MergeSection | company-research-assistant/src/App.jsx:230-236 | The section takes the new content and `fullText` is unchanged. Every other section keeps its value; an existing key keeps its position, and a new one goes last. |
| AppState.MergeLastWins | company-research-assistant/src/App.jsx:230-236 | Two edits of the same section equal the second edit alone. |
| AppState.MergeCommutes | company-research-assistant/src/App.jsx:230-236 | Edits to two different existing sections commute. |
| AppState.RecordResearch | company-research-assistant/src/App.jsx:150-157 | One entry is prepended with the company, research and id, without a plan; the list grows by one and the old entries follow unchanged. |
| AppState.AttachPlan | company-research-assistant/src/App.jsx:195-201 | Length, order, ids, companies and research are preserved. Exactly the entries of the current company without a plan change, and they get the plan and the flag. |
| AppState.AttachPlanCompletes | company-research-assistant/src/App.jsx:195-201 | Afterwards no entry of that company is without a plan. |
| AppState.AttachPlanIdempotent | company-research-assistant/src/App.jsx:195-201 | A later plan for the same company changes nothing; the first one attached stays. |
| AppState.ResearchThenPlan | company-research-assistant/src/App.jsx:150-201 | Researching and then generating a plan attaches it to the new front entry and to older entries of that company still without a plan. |
| AppState.GeneratePlanRequest | company-research-assistant/src/App.jsx:181-191 | No request is made iff the research is falsy or there is no current company; a request names the current company and carries the research. |
| AppState.ShouldSendTranscript | company-research-assistant/src/App.jsx:123-127 | A transcript is sent iff it contains a character that is not white space. |
| AppState.CountFrom | company-research-assistant/src/App.jsx:319-324 | From index `i`, the loop takes the sentences that each pass the length test in turn, at most up to three in total, and stops at the first that fails. |
| AppState.PreviewCount | company-research-assistant/src/App.jsx:317-324 | The preview takes a prefix of at most three sentences. Each one passed the length test when added, and the sentence after the prefix fails it unless three were already taken. |
| AppState.PreviewCountUnique | company-research-assistant/src/App.jsx:317-324 | These conditions determine the count: the loop never skips a sentence. |
| AppState.PickPreview | company-research-assistant/src/App.jsx:317-324 | The loop builds exactly `Preview(sentences)`, the accumulated prefix that `PreviewCount` selects. |
| AppState.PreviewLength | company-research-assistant/src/App.jsx:316-324 | The preview is at most 301 UTF-16 units: the length test ignores the joining space. |
| AppState.AccumulateIsJoin | company-research-assistant/src/App.jsx:322 | For non-empty sentences the preview is the chosen sentences joined by single spaces. |
| AppState.PreviewEmptyIff | company-research-assistant/src/App.jsx:317-326 | For non-empty sentences the preview is empty iff there is no sentence or the first is longer than 300 units. |
| AppState.BuildQuickSnapshot | company-research-assistant/src/App.jsx:284-328 | Falsy text gives "No data available". Otherwise an empty preview gives "No preview available", and any other preview is shown as it is. |
| AppState.UpperCase | company-research-assistant/src/App.jsx:354 | `toUpperCase` of one Latin-1 character. `a`-`z` and `à`-`þ` (except `÷`) become their capitals, 0x20 below. `µ` becomes Greek capital mu (U+039C), `ß` becomes `SS`, and `ÿ` becomes `Ÿ` (U+0178). Every other character is kept, and no lower-case Latin-1 letter remains. |
| AppState.CompanyInitials | company-research-assistant/src/App.jsx:352-355 | A falsy name gives `?`. Otherwise the result is `UpperCase` of the name's first character: one character, or two for `ß`, with no lower-case Latin-1 letter. |
| AppState.InitialsIgnoreCase | company-research-assistant/src/App.jsx:352-355 | A name and the same name with an upper-cased first ASCII letter give the same initial. |
| AppState.InitialsIdempotent | company-research-assistant/src/App.jsx:352-355 | A one-character initial is its own initial. |
| AppState.ToggleTheme | company-research-assistant/src/App.jsx:50-52 | The result is always `dark` or `light`, and `light` iff the previous theme was `dark`. |
| AppState.ToggleThemeTwice | company-research-assistant/src/App.jsx:50-52 | On the two themes, toggling twice is the identity. |
| AppState.ToggleHistoryExpand | company-research-assistant/src/App.jsx:279-281 | The entry's flag flips (a missing flag counts as collapsed) and the id becomes a key. Every other id keeps its presence and value. |
| AppState.ToggleHistoryExpandTwice | company-research-assistant/src/App.jsx:279-281 | Toggling an entry twice shows every entry as before. |
| JsText.Trim | company-research-assistant/server/server.js:254 | `trim` is a slice of the string with only white space before and after it. It is empty iff the string is all white space; otherwise it starts and ends with a character that is not white space. |
| JsText.Split | company-research-assistant/server/server.js:250 | `split(sep)` gives at least one piece, and no piece contains the separator. |
| JsText.JoinSplit | company-research-assistant/server/server.js:250-262 | Joining the pieces of `split(sep)` with `sep` gives back the string. With `Split`'s contract this fixes what `split` returns. |
| JsText.Includes | company-research-assistant/server/server.js:258 | `includes(t)` holds iff `t` occurs at some position. |
| JsText.JsLength | company-research-assistant/src/App.jsx:321 | `length` lies between the number of characters and twice that. It equals the number of characters iff no character is above U+FFFF, and twice it iff every character is. |
| JsText.JsLengthConcat | company-research-assistant/src/App.jsx:321-322 | The length of a concatenation is the sum of the lengths; with `JsLength`'s contract on one character, a character above U+FFFF counts two units and any other one. |

## Left out

- The LangChain/Groq chains, prompt templates and the `chat`, `researchCompany`, `generateAccountPlan` and `updateSection` bodies are calls to an external model. A model reply, or its failure, is a parameter of `Chat`; the other calls are not modelled.
- Express routing, CORS, environment loading, the API-key check and `app.listen` are I/O plumbing. The `/api/update-section` validation and the research and plan endpoints are not modelled.
- `/api/test-ai` is not modelled. It refers to names the server never defines.
- `src/services/api.js` (the HTTP client), the PDF export and the rendering in the React components are not part of this model.
- `buildQuickSnapshot`'s markdown clean-up and sentence split use regular expressions. The model takes the resulting sentence list as input, so the company-name prefix removal is not modelled.
- `Date.now()`, `new Date().toISOString()`, `localStorage`, `alert` and the DOM are left out. The history entry's id is a parameter and its timestamp is dropped.
- `loadFromHistory` and the chat-message bookkeeping of the handlers only copy values into React state, so they are not modelled.
- Conversations.ConversationStore.Chat: the reply goes to the client, and the client sends its own `history`, which the server converts; the stored log is never read by `chat`. `StoredLogConverts` relates the two, but no round trip through the network is modelled.
- Conversations.ConversationStore.Append: the source mutates the array it read from the map before storing it back. The model stores a new sequence, so aliasing of that array is not captured.
- PlanParser.ParseAccountPlan: the source's loop body is one block; the model puts it in the method `ScanLine`, called once per line, with the same branches.
- PlanSections.Put: JavaScript lists keys that look like array indices first, in numeric order. No section title has that form, so key order is insertion order throughout.
- PlanParser.ParseWith: a section is open whatever its title, while the server tests `currentSection` for truthiness. The two agree only for titles that are not empty, as the ten canonical titles are. The lemmas stated for any list of titles assume that.
- JavaScript strings may hold unpaired UTF-16 surrogates; model strings are sequences of Unicode scalar values and cannot.
- AppState.MergeSection: the updater spreads `prev` even when no plan is loaded (`prev` is `null`). The model takes a loaded plan.
- AppState.UpperCase: models `toUpperCase` only for Latin-1. Other scripts' case mappings are not modelled.
- AppState.CompanyInitials: the source's `charAt(0)` takes one UTF-16 unit, which for a character beyond the Basic Multilingual Plane is half a surrogate pair. The model takes the whole first character. For `ß` the result is two characters, `SS`, not one.
- AppState.PreviewLength: the bound is 301, not 300, because the length test does not count the joining space.
- AppState.ToggleThemeTwice: toggling twice restores only `dark` and `light`. Any other stored theme becomes `dark`, then `light`.
