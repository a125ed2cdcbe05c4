# Reely AI core: a Dafny model

Reely AI is a set of writing tools: a text summariser, an idea generator, a content refiner and a chat assistant. They run in a Next.js front end over a small FastAPI back end that calls Google's Gemini model. This project models the parts of that system that make decisions, and it proves what they promise:

- **The persistent history store** (`usePersistentHistory`), in `history.dfy`. It is an in-memory list of records mirrored into browser storage under one key. The model covers:
  - loading it on mount and saving it whenever the list or the loaded flag changes;
  - the add rule, which upserts by id, moves the record to the front and caps the list at `maxItems` with JavaScript `slice` semantics (a negative end included);
  - removal by id, clearing and the export file name.

  `Store` is a class whose fields are the list, the loaded flag and the storage map. Its methods change exactly what the hook changes.
- **The chat tool's session rules** (`ai-chatbot.tsx`), in `chatbot.dfy`. The model covers:
  - the guards that decide whether a conversation is saved;
  - the session title (the first 50 characters, plus "..." when longer);
  - the five-message context sent with a request;
  - the data handed to the history listener when a session is opened;
  - the session lifecycle: send, load and start a new chat.

  `Chat` is a class over the conversation, the session id and a `History.Store` of sessions capped at 20 under `ai-chatbot-history`.
- **Three Next.js API routes** with their local fallbacks: `/api/summarize` (`summarize_route.dfy`), `/api/refine-content` (`refine_route.dfy`) and `/api/chat` (`chat_route.dfy`). Each route:
  - validates its request;
  - forwards to the back end when the back end answers;
  - otherwise builds a fallback answer by the rule the route defines:
    - sentence picking for summaries;
    - keyword-chosen rewrites, including whole-word regular-expression replacement, for refinement;
    - a keyword cascade with a random default for chat.
- **The FastAPI back end** (`backend/api.py`), in `backend.dfy`. The model covers:
  - the request defaults;
  - the Gemini call's outcomes: a missing key, HTTP failures that escape the handler as a plain 500, and a reply without the expected path giving 502;
  - the extraction path into Gemini's JSON reply;
  - the parsing of generated ideas (split into lines, drop blank lines, strip the marks "- •* " from both ends).

Supporting modules:

- `wrappers.dfy`: `Option`.
- `text.dfy`: the string built-ins the core relies on, each with its own semantics written out: JavaScript `trim`, `toLowerCase`, `includes`, `split` by a character-class regex and `join`, and Python `strip` and `splitlines`.
- `codec.dfy`: the decimal form of `Date.now().toString()`, and a self-delimiting text encoding that stands in for JSON in storage.
- `route_common.dfy`: the request field and the handler responses shared by the routes.
- `scenarios.dfy`: whole-store runs on small examples. They cover eviction, promotion, removal, clearing and reopening, and reloading.

The clock, the browser storage, the back end's answer and the random choice are parameters of the model. In the model:

- a time is a natural number of milliseconds;
- browser storage is a map from key to text;
- a back-end call is the value it would return;
- the random default reply is a nondeterministic choice.

## Model

| member | source | states |
|---|---|---|
| History.FindIndex | Frontend/hooks/use-persistent-history.ts:58 | The result is -1 exactly when no record has the id; otherwise it is the first position holding the id. |
| History.FindIndexFirst | Frontend/hooks/use-persistent-history.ts:58 | A position with no earlier record of the same id is what `findIndex` returns for that id. |
| History.CountId | Frontend/hooks/use-persistent-history.ts:58-69 | The count of records with an id is zero exactly when the id is absent, and it is at most the length. |
| History.SliceEnd | Frontend/hooks/use-persistent-history.ts:69-73 | The end index of `slice(0, end)`: `end` clamped to the length, and a negative end counted from the back, floored at 0. |
| History.ResolveId | Frontend/hooks/use-persistent-history.ts:48 | The supplied id when it is present and non-empty; otherwise the decimal digits of the current time. Never empty. |
| History.UpsertIsPromoteThenCap | Frontend/hooks/use-persistent-history.ts:56-74 | With unique ids and a cap ≥ 1, adding is: the item in front of the other records (the old record with its id removed), cut to the cap. |
| History.UpsertNewId | Frontend/hooks/use-persistent-history.ts:72-73 | A new id goes to the front of the first `maxItems - 1` old records. The length never exceeds the cap. |
| History.UpsertNewIdZeroCap | Frontend/hooks/use-persistent-history.ts:73 | With `maxItems = 0`, `slice(0, -1)` keeps all but the last old record, so the list is not bounded by the cap and keeps its non-zero length. |
| History.UpsertExistingId | Frontend/hooks/use-persistent-history.ts:58-69 | For an existing id, first at position i, the new item is at the front (for a cap ≥ 1). The length exceeds neither the old length nor the cap. Records before i move back one place, and those after i keep their positions. |
| History.UpsertKeepsUnique | Frontend/hooks/use-persistent-history.ts:56-74 | Unique ids stay unique through an add, for any cap. |
| History.UpsertBounded | Frontend/hooks/use-persistent-history.ts:56-74 | With a cap ≥ 1 the list has between 1 and `maxItems` records after an add, and the added record is first. |
| History.AddDistinctKeepsMostRecent | Frontend/hooks/use-persistent-history.ts:46-75 | Adding records with distinct ids one after another, from empty, leaves the last `maxItems` of them, most recent first. |
| History.AddDistinctFrom | Frontend/hooks/use-persistent-history.ts:46-75 | The inductive form of the above, from any prefix already added. |
| History.AddOneDistinct | Frontend/hooks/use-persistent-history.ts:72-73 | One new-id add puts that record in front of the reversed, capped history. |
| History.RemoveId | Frontend/hooks/use-persistent-history.ts:86-88 | After removal no record carries the id, and the list does not grow. |
| History.RemoveIdCount | Frontend/hooks/use-persistent-history.ts:87 | Exactly the records carrying the id are dropped: the new length is the old length minus their count. |
| History.RemoveIdMembers | Frontend/hooks/use-persistent-history.ts:87 | A record is kept exactly when it was present with a different id. |
| History.RemoveIdSubsequence | Frontend/hooks/use-persistent-history.ts:87 | The kept records stay in their original order. |
| History.RemoveAbsentId | Frontend/hooks/use-persistent-history.ts:87 | Removing an absent id changes nothing. |
| History.RemoveKeepsAbsent | Frontend/hooks/use-persistent-history.ts:87 | An id absent before a removal is still absent after it. |
| History.RemoveKeepsUnique | Frontend/hooks/use-persistent-history.ts:87 | Unique ids stay unique through a removal. |
| History.RemoveIdConcat | Frontend/hooks/use-persistent-history.ts:87 | The filter distributes over concatenation. |
| History.RemoveAtFound | Frontend/hooks/use-persistent-history.ts:87 | With unique ids, removing the id at position i removes exactly that position. |
| History.RecordRoundTrips | Frontend/hooks/use-persistent-history.ts:20-25 | If the payload codec reads back what it writes, so does the record codec. This includes a record's timestamp. |
| History.DecodeEncode | Frontend/hooks/use-persistent-history.ts:20-25 | Decoding the stored text of a list gives back the same list, in order. |
| History.Persisted | Frontend/hooks/use-persistent-history.ts:36-44 | The save effect writes the encoded list under the key only when loaded and non-empty, and leaves every other key alone. Otherwise storage is unchanged. |
| History.HydratePersisted | Frontend/hooks/use-persistent-history.ts:16-44 | Whatever the save effect wrote, a fresh store opened under that key loads it back. |
| History.HydrateCleared | Frontend/hooks/use-persistent-history.ts:16-33 | After the key is deleted, a fresh store loads an empty list. |
| History.BeforeT | Frontend/hooks/use-persistent-history.ts:96 | `split("T")[0]`: the longest prefix without a 'T'. The character after it, if any, is the 'T'. |
| History.BeforeTOfIso | Frontend/hooks/use-persistent-history.ts:96 | For `date + "T" + time` with a T-free date, the part before `T` is exactly the date. |
| History.ExportFileNameOfIso | Frontend/hooks/use-persistent-history.ts:96 | The export file is named `<key>-history-<date>.json` for an ISO time. |
| History.Store.constructor | Frontend/hooks/use-persistent-history.ts:11-13 | A new store is empty and not loaded, with the given key, cap, codec and storage. |
| History.Store.SaveEffect | Frontend/hooks/use-persistent-history.ts:36-44 | The new storage is `Persisted` of the old storage and the current list and flag. |
| History.Store.Load | Frontend/hooks/use-persistent-history.ts:16-33 | The store is loaded. The list is the parsed stored value when the key holds non-empty text that parses; otherwise the list is unchanged. The save effect follows. |
| History.Store.Add | Frontend/hooks/use-persistent-history.ts:46-75 | The list is the upsert of the record stamped with the resolved id and the time. For a cap ≥ 1, that record is at the front and the store invariant (unique ids, cap respected) is preserved. Storage follows the save effect. |
| History.Store.RemoveAsWritten | Frontend/hooks/use-persistent-history.ts:36-88 | As written: the list is the filtered list and the invariant is preserved. Storage follows the save effect, which writes nothing when the list is empty. |
| History.Store.Remove | Frontend/hooks/use-persistent-history.ts:77-88 | Corrected: the list is the filtered list and the invariant is preserved. Storage is `AfterRemove`: the key is deleted when a loaded list becomes empty. |
| History.AfterRemove | Frontend/hooks/use-persistent-history.ts:77-88 | For a loaded store, the key holds the encoded list when the list is non-empty and is absent when it is empty. Other keys are untouched, and nothing changes before loading. |
| History.ReloadAfterRemove | Frontend/hooks/use-persistent-history.ts:16-88 | After the corrected removal, a fresh store loads exactly the records left, including none. |
| History.RemovedRecordReturns | Frontend/hooks/use-persistent-history.ts:36-88 | As written: removing the only record of a saved list empties the list. A fresh store on the same key still loads that record. |
| History.Store.Clear | Frontend/hooks/use-persistent-history.ts:77-84 | The list is empty and the key is deleted from storage. Nothing else in storage changes. |
| History.Store.Export | Frontend/hooks/use-persistent-history.ts:90-99 | Returns the export file name for the current time and the encoded list. |
| Codec.Digits | Frontend/hooks/use-persistent-history.ts:48 | `Date.now().toString()`: a non-empty string of decimal digits. |
| Codec.ValueOfDigits | Frontend/hooks/use-persistent-history.ts:48 | The digits read back as the number they were made from. |
| Codec.DigitsInjective | Frontend/hooks/use-persistent-history.ts:48 | Different times give different generated ids. |
| Codec.ParseEncodeNat | Frontend/hooks/use-persistent-history.ts:20-25 | A stored timestamp reads back as the same number, followed by the rest of the text. |
| Codec.ParseEncodeStr | Frontend/hooks/use-persistent-history.ts:20-25 | A stored string reads back unchanged, followed by the rest of the text. |
| Codec.ParseEncodeSeq | Frontend/hooks/use-persistent-history.ts:20-25 | A stored list reads back element by element with a sound element codec. |
| Codec.EncodeSeqNonEmpty | Frontend/hooks/use-persistent-history.ts:19 | The stored form is never empty text, so a saved list is never skipped by the `if (stored)` check. |
| Chatbot.UserMessages | Frontend/components/ai-tools/ai-chatbot.tsx:67 | Only user messages are kept. The result is empty exactly when there is none, and its first element is the first user message. |
| Chatbot.Title | Frontend/components/ai-tools/ai-chatbot.tsx:74 | The first 50 characters, plus "..." exactly when the content is longer than 50. Its length is 53 or the content's length. |
| Chatbot.SessionToSaveSpec | Frontend/components/ai-tools/ai-chatbot.tsx:64-79 | Both directions: nothing is saved exactly when there is no session id, at most one message, or no user message. A saved session carries the id and all the messages, and its title comes from the first user message. |
| Chatbot.Context | Frontend/components/ai-tools/ai-chatbot.tsx:108 | `slice(-5)`: the last min(n, 5) messages. The messages are some prefix followed by exactly this context. |
| Chatbot.LastOfRole | Frontend/components/ai-tools/ai-chatbot.tsx:160-161 | `reverse().find(...)`: None exactly when no message has the role; otherwise the last message with it. |
| Chatbot.SessionNotice | Frontend/components/ai-tools/ai-chatbot.tsx:159-170 | The listener is notified exactly when it exists, the session has at least two messages and both roles occur. The notice carries the last user and the last assistant texts and the session's time. |
| Chatbot.ReplyText | Frontend/components/ai-tools/ai-chatbot.tsx:117 | `data.response \|\| "No response."`: the response when it is non-empty, never empty. |
| Chatbot.MessageRoundTrips | Frontend/components/ai-tools/ai-chatbot.tsx:13-18 | Stored messages read back unchanged. |
| Chatbot.SessionRoundTrips | Frontend/components/ai-tools/ai-chatbot.tsx:20-25 | Stored sessions (messages and title) read back unchanged. |
| Chatbot.CountIdUnique | Frontend/components/ai-tools/ai-chatbot.tsx:77-78 | In a list with unique ids, the id at the front occurs exactly once. |
| Chatbot.RepeatedSaveIsOneEntry | Frontend/components/ai-tools/ai-chatbot.tsx:77-78 | Saving the same session twice keeps one entry for it, at the front, and the second save does not lengthen the list. |
| Chatbot.ExchangeIsSaved | Frontend/components/ai-tools/ai-chatbot.tsx:124-126 | A conversation with a session id that ends in a user message and then a reply passes the save guards. |
| Chatbot.FirstExchangeLost | Frontend/components/ai-tools/ai-chatbot.tsx:64-68 | The state a stale save sees at the first exchange (no id, only the welcome) is not saved. The state after the exchange would be. |
| Chatbot.Chat.constructor | Frontend/components/ai-tools/ai-chatbot.tsx:32-53 | The conversation is the welcome message and there is no session id. The history store uses key `ai-chatbot-history` with cap 20 and has not loaded yet. |
| Chatbot.Chat.SaveCurrentSession | Frontend/components/ai-tools/ai-chatbot.tsx:64-79 | When the guards refuse, the store is unchanged. Otherwise the session is upserted under its id with the current time, and storage follows the save effect. |
| Chatbot.Chat.SaveSession | Frontend/components/ai-tools/ai-chatbot.tsx:64-79 | The same, on the session id and messages that a closure sees. |
| Chatbot.Chat.AppendExchange | Frontend/components/ai-tools/ai-chatbot.tsx:84-121 | The session id is kept when set and otherwise made from the time. The user message is appended, followed by the assistant message when there is a reply (its text `ReplyText`). |
| Chatbot.Chat.SendMessage | Frontend/components/ai-tools/ai-chatbot.tsx:81-137 | A blank input changes nothing. Otherwise it keeps or creates the session id and returns the last five earlier messages as context. It appends the user message and, on a reply, the assistant message, and then saves the updated conversation. A failed request saves nothing. |
| Chatbot.Chat.SendMessageAsWritten | Frontend/components/ai-tools/ai-chatbot.tsx:81-137 | As written: the conversation, id and context are as above. The save after the reply uses the session id and messages from before the send: the store is unchanged when those fail the guards, and otherwise that older conversation is upserted. |
| Chatbot.Chat.LoadSession | Frontend/components/ai-tools/ai-chatbot.tsx:146-177 | It saves the open conversation exactly when the guards allow, then shows the chosen session and takes over its id. It returns the listener notice. |
| Chatbot.Chat.StartNewChat | Frontend/components/ai-tools/ai-chatbot.tsx:179-197 | It saves the open conversation when the guards allow, then resets to the welcome message with no session id. |
| RouteCommon.BadBody | Frontend/app/api/summarize/route.ts:39-42 | A body that cannot be read as JSON is answered with a failure of status 500. |
| SummarizeRoute.Sentences | Frontend/app/api/summarize/route.ts:46 | Every sentence is non-blank and contains none of `.`, `!`, `?`. |
| SummarizeRoute.WordCount | Frontend/app/api/summarize/route.ts:47 | `split(/\s+/).length` is at least 1. |
| SummarizeRoute.WordCountIsRuns | Frontend/app/api/summarize/route.ts:47 | The word count is one more than the number of whitespace runs, counting leading and trailing runs too. |
| SummarizeRoute.PicksSpec | Frontend/app/api/summarize/route.ts:54-60 | The kept positions are in range and strictly increasing. There are min(n, 3) of them, and they include the first and the last. With three or more sentences they are first, `floor(n/2)` and last. |
| SummarizeRoute.Picked | Frontend/app/api/summarize/route.ts:55-60 | The kept sentences are the picked ones, trimmed. |
| SummarizeRoute.SummaryOfCases | Frontend/app/api/summarize/route.ts:62 | The joined summary, written out for 0, 1, 2 and 3 or more sentences. |
| SummarizeRoute.FallbackSummaryCases | Frontend/app/api/summarize/route.ts:45-63 | For texts of at least 50 words, the summary by number of sentences (`"."` when there is none). |
| SummarizeRoute.ShortTextIsConcise | Frontend/app/api/summarize/route.ts:49-51 | Texts under 50 words always get the fixed "already concise" message. |
| SummarizeRoute.PostSpec | Frontend/app/api/summarize/route.ts:5-43 | Each outcome iff its condition: 400 for a missing or non-string `text`, 500 for a bad body, the back end's data when it answers, otherwise the fallback summary with `source: "fallback"` and the demo message. |
| SummarizeRoute.RejectionIgnoresBackend | Frontend/app/api/summarize/route.ts:9-11 | Validation comes before the back-end call: a rejected request gets the same 400 whatever the back end would do. |
| RefineRoute.ReplaceFromNoMatch | Frontend/app/api/refine-content/route.ts:54-60 | With no whole-word match from position i on, the scan copies the rest unchanged. |
| RefineRoute.ReplaceWordNoMatch | Frontend/app/api/refine-content/route.ts:54-60 | A text without a whole-word match is returned unchanged. |
| RefineRoute.ReplaceWordAbsent | Frontend/app/api/refine-content/route.ts:54-60 | A text that does not contain the word at all is returned unchanged. |
| RefineRoute.ReplaceFromMatchThenCopy | Frontend/app/api/refine-content/route.ts:54-60 | Replacement is local: a match followed by a stretch with no match becomes the replacement, then that stretch copied. |
| RefineRoute.CopyUntil | Frontend/app/api/refine-content/route.ts:54-60 | A stretch with no match is copied verbatim, ahead of the scan of the rest. |
| RefineRoute.ReplaceWholeWord | Frontend/app/api/refine-content/route.ts:54-60 | A text that is exactly the word becomes exactly the replacement. |
| RefineRoute.FormalYourIsOnes | Frontend/app/api/refine-content/route.ts:59-60 | `\byou\b` does not match inside "your", so "your" becomes "one's" under the formal rewrite. |
| RefineRoute.CapitalisedContractionKept | Frontend/app/api/refine-content/route.ts:54 | Matching is case-sensitive: "Can't" is not expanded. |
| RefineRoute.ContractionRoundTrip | Frontend/app/api/refine-content/route.ts:54-65 | The whole formal rewrite takes "can't" to "cannot", the whole casual rewrite takes "cannot" back to "can't", and so casual after formal gives "can't" again. |
| RefineRoute.FormalKeepsText | Frontend/app/api/refine-content/route.ts:53-60 | For every text: when none of the seven words occurs as a whole word, the formal rewrite returns the text unchanged. |
| RefineRoute.CasualKeepsText | Frontend/app/api/refine-content/route.ts:64-69 | For every text: when none of the five phrases occurs as a whole word, the casual rewrite returns the text unchanged. |
| RefineRoute.FormalOfWords | Frontend/app/api/refine-content/route.ts:53-60 | Each of the seven words on its own becomes its replacement under the whole formal chain, and no later step in the chain changes it again. |
| RefineRoute.CasualOfWords | Frontend/app/api/refine-content/route.ts:64-69 | Each of the five phrases on its own becomes its contraction under the whole casual chain. |
| RefineRoute.KeepCount | Frontend/app/api/refine-content/route.ts:74 | `Math.ceil(n * 0.7)` as the least k with 10k ≥ 7n. It is at most n, and at least 1 when n ≥ 1. |
| RefineRoute.Concise | Frontend/app/api/refine-content/route.ts:72-75 | The concise rewrite always ends in ".". |
| RefineRoute.ConciseKeepsLeadingSentences | Frontend/app/api/refine-content/route.ts:72-75 | For every text: the result is the join with ". " of a prefix of the non-blank sentences, plus ".". The prefix's length is the least k with 10k ≥ 7n: at least 1 when there is a sentence. Each kept sentence is non-blank and has no terminator. |
| RefineRoute.Enthusiastic | Frontend/app/api/refine-content/route.ts:77-79 | The text comes first, unchanged, followed by exactly as many characters as the fixed sentence. |
| RefineRoute.Professional | Frontend/app/api/refine-content/route.ts:81-83 | The fixed prefix, then the text lower-cased character by character. |
| RefineRoute.Default | Frontend/app/api/refine-content/route.ts:86 | `[Refined based on "<instruction>"] <text>` with both parts verbatim, at their exact positions. |
| RefineRoute.BranchOfFirstMatch | Frontend/app/api/refine-content/route.ts:50-86 | Both directions: the branch is the k-th keyword's iff the lower-cased instruction contains it and no earlier keyword. It is the default iff none occurs. |
| RefineRoute.InformalIsFormal | Frontend/app/api/refine-content/route.ts:50-52 | "informal" contains "formal", and the test is case-insensitive, so both select the formal rewrite. |
| RefineRoute.PostSpec | Frontend/app/api/refine-content/route.ts:5-47 | `text` is checked before `instruction`, each giving its own 400. A bad body gives 500. A good request is forwarded, or falls back to the rewrite with `source: "fallback"`. |
| ChatRoute.FallbackChatResponse | Frontend/app/api/chat/route.ts:52-94 | The first rule whose keyword occurs in the lower-cased message decides the reply. With no rule it is one of the five defaults; the history plays no part. |
| ChatRoute.HiAnywhereGreets | Frontend/app/api/chat/route.ts:56-58 | Any occurrence of "hi" in the lower-cased message, even inside a word, gives the greeting before any other rule. |
| ChatRoute.HiInsideWords | Frontend/app/api/chat/route.ts:56-58 | "this" and "Things to help with" are both greeted. |
| ChatRoute.NoKeywordMeansDefault | Frontend/app/api/chat/route.ts:84-93 | Without a keyword, the possible replies are exactly the five defaults, and each of them may come. |
| ChatRoute.Post | Frontend/app/api/chat/route.ts:12-50 | 500 for a bad body, 400 "Message is required" for a missing or non-string message, the back end's data when it answers, otherwise the fallback reply with `source: "fallback"`. |
| Text.Lower | Frontend/app/api/chat/route.ts:53 | `toLowerCase`, character by character, with the length kept. |
| Text.StripShape | backend/api.py:103 | Stripping a class of characters: the result is a slice of the input, everything cut from either end is in the class, and the result neither starts nor ends with one. |
| Text.StripEmptyIff | backend/api.py:103 | Both directions: the stripped string is empty iff every character is in the class. |
| Text.NonBlankIff | Frontend/app/api/summarize/route.ts:46 | Both directions: `s.trim().length > 0` iff some character is not JavaScript whitespace. |
| Text.SplitRuns | Frontend/app/api/summarize/route.ts:46-47 | `split` by a character-class regex: there is at least one piece, and no piece contains a separator. |
| Text.SplitRunsConcat | Frontend/app/api/summarize/route.ts:46 | Splitting loses only separators: the pieces concatenated are the text with its separators removed. |
| Text.SplitRunsCount | Frontend/app/api/summarize/route.ts:47 | There is one more piece than there are separator runs. |
| Text.NonBlank | Frontend/app/api/summarize/route.ts:46 | The filter keeps only non-blank pieces, all taken from the input, and no more of them than there were pieces. |
| Text.NonBlankKeepsAll | Frontend/app/api/summarize/route.ts:46 | When every piece is non-blank, the filter keeps them all. |
| Text.Lines | backend/api.py:103 | `splitlines` splits at "\n", "\r", "\r\n", "\v", "\f" and "\x1c" to "\x1e": no line contains a break. There are no more lines than characters, and none exactly for the empty text. |
| Text.LinesJoin | backend/api.py:103 | In a text whose only breaks are "\n", joining its lines with "\n" gives the text back, up to one final "\n". |
| Text.LinesCons | backend/api.py:103 | A first line followed by "\n" splits off as the first line. |
| Backend.IdeaShape | backend/api.py:103 | `line.strip("- •* ")`: what is cut from both ends is marks, and the idea neither starts nor ends with one. |
| Backend.IdeasCount | backend/api.py:103 | One idea per line that is not whitespace-only. |
| Backend.ParseIdeasCons | backend/api.py:103 | Ideas come in line order: a first line gives its idea, or nothing when blank, ahead of the rest's ideas. |
| Backend.BlankLineDropped | backend/api.py:103 | A whitespace-only line gives no idea. |
| Backend.MarksOnlyGiveEmptyIdea | backend/api.py:103 | A line of only marks, such as "---", is kept as an empty idea. |
| Backend.TabKept | backend/api.py:103 | Tabs are not marks: "\t- x" is kept as it is. |
| Backend.Instruction | backend/api.py:108 | An empty instruction becomes the default one; any other is kept. |
| Backend.ChatInput | backend/api.py:113 | `message or query or ""`: the first truthy of the two, else empty. |
| Backend.ExtractReply | backend/api.py:87 | The documented reply shape gives back its text. |
| Backend.ExtractTextOnlyOnPath | backend/api.py:86-89 | Extraction succeeds only when the whole path exists and each list on it is non-empty. The value is the one at the end of the path. |
| Backend.CallGeminiSpec | backend/api.py:72-89 | Without a key: 500 "GEMINI_API_KEY is not set.", whatever the reply. Success iff a 2xx reply has a JSON body with the path, and then the value is the one found. 502 iff a 2xx reply has no JSON body or lacks the path. A transport error or a non-2xx status is an unhandled 500. |
| Backend.GenerateIdeas | backend/api.py:96-104 | Ideas iff the call succeeds with a string, in which case they are that string's parsed ideas. Call errors pass through, and a successful non-string reply is an unhandled 500. |
| Backend.RefinePromptInstruction | backend/api.py:106-109 | The refinement prompt carries the instruction verbatim, or the default one when it is empty. |
| Scenarios.AddNewIds | Frontend/hooks/use-persistent-history.ts:72-73 | A new id goes in front of the old ids, cut to the cap. |
| Scenarios.PromoteThird | Frontend/hooks/use-persistent-history.ts:60-69 | Re-adding the id at the back of a full store of three brings it to the front and keeps the other two in order. |
| Scenarios.RemoveThird | Frontend/hooks/use-persistent-history.ts:86-88 | Removing the last of three leaves the first two. |
| Scenarios.EvictionScenario | Frontend/hooks/use-persistent-history.ts:11-99 | In a store capped at three: adding a, b, c, d leaves d, c, b. Adding b again gives b, d, c. Removing c gives b, d. Clearing deletes the key, and a reopened store loads empty. |
| Scenarios.RemoveLastScenario | Frontend/hooks/use-persistent-history.ts:16-88 | As written: removing the only record empties the list but writes nothing. The stored copy still holds the record, and a reopened store loads it again. |
| Scenarios.RemoveLastFixedScenario | Frontend/hooks/use-persistent-history.ts:16-88 | With the corrected removal, removing the only record deletes the key, and a reopened store starts empty. |
| Scenarios.ReloadScenario | Frontend/hooks/use-persistent-history.ts:16-44 | What a store saved is what a store opened later on the same key loads. |

## Findings

| source | as written | input that shows it | evidently intended | confidence | as-written member | corrected member |
|---|---|---|---|---|---|---|
| Frontend/components/ai-tools/ai-chatbot.tsx:126 | `handleSendMessage` calls the `saveCurrentSession` of the render it started in. That function reads `currentSessionId` and `messages` from before the user message, the reply and any new session id. | A new chat (no session id, only the welcome message). Send "hi" and receive a reply: the save sees no id and one message, so nothing is saved. Later sends save the conversation one exchange late. | Save the conversation including the exchange just completed, as the comment at lines 124-125 says. | not executed | Chatbot.Chat.SendMessageAsWritten, Chatbot.FirstExchangeLost | Chatbot.Chat.SendMessage |
| Frontend/hooks/use-persistent-history.ts:86-88 | `removeFromHistory` only filters the list. The save effect skips an empty list, so removing the last record leaves the old list in storage. | Save one record, remove it, and reload: the load effect finds the stored list and the removed record comes back. | An emptied history leaves storage empty, as `clearHistory` ensures by deleting the key. | not executed | History.Store.RemoveAsWritten, History.RemovedRecordReturns, Scenarios.RemoveLastScenario | History.Store.Remove, History.ReloadAfterRemove, Scenarios.RemoveLastFixedScenario |

## Left out

- Browser storage and JSON: storage is a map from key to text. `JSON.stringify`/`JSON.parse` are replaced by a self-delimiting text encoding with a proved round trip. Pretty-printing in the export, a `JSON.parse` of foreign text, and parsing a timestamp back into a `Date` are not modelled. A timestamp is kept as a number of milliseconds.
- React rendering: state updates are applied immediately, in call order. The toast messages and the `loading`/`input` flags are left out, and so is scrolling. The stale closure in `handleSendMessage` is modelled only where it changes what is saved (see Findings).
- Chatbot.Chat.SendMessage: the user message, the assistant message and a new session id all use one time `now`. The source reads the clock separately at each of these steps, so its times can differ.
- History.Store.Add: the generated id and the timestamp use one time `now`. The source takes the id from `Date.now()` and the timestamp from a second reading, `new Date()`, so the two can differ by a few milliseconds.
- ChatRoute.FallbackChatResponse: `Math.random()` is a nondeterministic choice among the five replies. The model does not say anything about how the choice is distributed.
- HTTP and the network: a back-end call is the value it returns (`Option` of its data in the routes, `GeminiReply` in the back end). Timeouts, CORS and `fetch` are not modelled. A response that is not OK and a thrown `fetch` are treated the same way, since the routes treat them the same way.
- The `/api/generate-ideas` and `/api/health` routes, `lib/api-client.ts`, and the components other than the chat tool are not part of this model.
- The back end's `root` health endpoint and FastAPI's request validation (a 422 for a body that does not fit the pydantic model) are left out. The model starts from validated request fields.
- Strings: a character is a Unicode scalar value, as in Python. JavaScript strings are sequences of UTF-16 code units, where a character outside the Basic Multilingual Plane (an emoji, say) counts as two. Lower-casing and whitespace are modelled for ASCII plus the whitespace characters listed in `text.dfy`. Full Unicode case mapping and Unicode line separators in `splitlines` are outside the model.
- Chatbot.Title: the 50-character cut and the `length > 50` test count Unicode scalar values. The source counts UTF-16 code units, so for content with characters outside the Basic Multilingual Plane its title is cut earlier, and it can split a surrogate pair.
- RefineRoute.KeepCount: `Math.ceil(n * 0.7)` is computed exactly as the ceiling of 7n/10. Floating-point rounding does not change the result for the list lengths that occur.
- Backend.CallGeminiSpec: the Gemini reply body is a JSON value with integers only. Floating-point numbers are not modelled.
