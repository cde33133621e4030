# GptDAT streaming completion, modelled in Dafny

GptDAT is a TouchDesigner DAT operator that requests a text completion from the
OpenAI completions endpoint and shows the text as it streams in. This project
models its two pieces of logic:

- **The streaming write callback** (`write_callback`). The HTTP transport calls
  it once per chunk of the response body. It scans the chunk with a
  brace-depth counter and cuts out every `{…}` object whose depth returns to 0.
  For each such frame:
  - if it parses as an event with an `error` member, its `error.message` is
    appended to the completion straight away;
  - otherwise the frame is queued.

  At the end of the chunk, the queued frames are parsed as one JSON array. The
  `choices[0].text` of its items are joined and appended. The callback returns
  `size * nmemb`, or 0 when any parse or conversion throws.
- **The operator's state machine.** It has two fields, `isCompleting` and
  `currentCompletion`. They are set by:
  - the constructor;
  - the per-cook `execute`: the Complete gate, the missing-key path, the
    request prompt, publishing the completion, and Reset;
  - the background request's effects: starting, a transport failure, and the
    end of the request.

Modules:

- `Wrappers`: `Option`.
- `Json`: the JSON values, and how the library's mutable accessors treat them:
  - `j[key]` turns null into an object and reads a missing key as null;
  - `j[0]` turns null into an array;
  - a string conversion throws on anything that is not a string;
  - a range-for visits array items, object values, nothing for null, and the
    value itself for anything else.
- `Framer`: the brace scanner as a left fold (`FrameStep`, `Scan`, `Frames`),
  with its invariant and the shape of what it cuts.
- `Classifier`: the per-frame classification folded over the frames
  (`Classify`), the token fold over the batch array (`Tokens`), and `Callback`,
  the whole callback on one chunk as a function.
- `Plugin`: the class `GptDAT`. Its `WriteCallback` is the character loop,
  proved to compute `Callback`.
- `Scenarios`: whole-chunk consequences.

JSON parsing is the parameter `parse: string -> Option<Json>`. It is a partial
function, and `None` means the parser throws. The environment's
`OPENAI_API_KEY` is the input `envKey`. The transport's outcomes are inputs of
the request methods.

## Model

| member | source | states |
|---|---|---|
| Framer.ScanConsistent | GptDAT.h:68-80 | After any prefix of a chunk the depth is a natural number, and it is 0 exactly when nothing is being collected. The open text starts at its `{` with the counter equal to its brace depth. Every frame cut so far is a balanced object. |
| Framer.FrameStepConsistent | GptDAT.h:71-80 | One character keeps that scanner invariant. |
| Framer.FramesAreObjects | GptDAT.h:71-80 | Every frame cut from a chunk starts with `{`, ends with `}`, and is brace-balanced. Its depth first returns to 0 at its last character. |
| Framer.DepthZeroSkips | GptDAT.h:71-74 | At depth 0, any character but `{` leaves the scanner unchanged. So a stray `}` never drives the counter negative. |
| Framer.ObjectEndsWithClose | GptDAT.h:76-80 | A balanced object ends with `}`, and the counter stands at 1 just before it. |
| Framer.ScanFiller | GptDAT.h:71-74 | Text without `{`, read at depth 0, is discarded. |
| Framer.ScanObjectPrefix | GptDAT.h:71-80 | Inside an object, before its last character, the scanner holds exactly the text read so far, and its counter is that text's depth. |
| Framer.ScanObject | GptDAT.h:71-80 | Reading a whole object from depth 0 cuts exactly that object, at its closing brace. |
| Framer.FramesOfWeave | GptDAT.h:64-80 | Objects separated by text without `{` are cut exactly and in order, and nothing is left open. |
| Framer.ScanObjectThenFiller | GptDAT.h:71-80 | After a clean cut, an object followed by text without `{` adds exactly that object and leaves nothing open. |
| Framer.ChunkIsWovenFrames | GptDAT.h:69-104 | Every chunk is its frames, in scan order and without overlap, separated by text without `{`, followed by the object still open at its end. So the scanner drops only `{`-free text read at depth 0. This is the converse of `FramesOfWeave`. |
| Framer.FrameStepWoven | GptDAT.h:71-80 | One character keeps the chunk read so far in that shape: a character skipped at depth 0 extends the last filler, a character inside an object extends the open text, and a closing cut turns the open text into a new frame followed by a new, empty filler. |
| Framer.ScanFromConcat | GptDAT.h:69-104 | Scanning a concatenation is scanning its second part from the state the first part leaves. |
| Framer.ScanFromKeepsFrames | GptDAT.h:79-80 | Frames are only ever added at the end. |
| Framer.FramesOfPrefix | GptDAT.h:69-104 | The frames of a prefix of a chunk are a prefix of the chunk's frames. |
| Framer.FrameStepCutFrom | GptDAT.h:75-80 | After one character, the collected text is still a tail of what was read, and each frame a contiguous piece of it. |
| Framer.ScanCutFrom | GptDAT.h:75-80 | The collected text is a tail of the chunk read so far, and each frame is a contiguous piece of it. |
| Framer.FramesOccurInChunk | GptDAT.h:75-80 | Every frame occurs contiguously in its chunk. |
| Framer.SplitObjectIsLost | GptDAT.h:66-68 | An object split across two chunks is lost. The chunk holding its head ends with depth > 0 and cuts no frame for it. The chunk holding its tail cannot cut it either, because all scanner state is local to one call. |
| Classifier.EventKindCases | GptDAT.h:84-95 | A parsed event is an error frame with message `m` exactly when it has an `error` member whose `message` is the string `m`. It is a token frame exactly when it has no `error` member. The conversion throws when `error.message` is missing or not a string. |
| Classifier.ErrorMessageIsErrorDotMessage | GptDAT.h:89 | The message is found exactly when `error` holds a value whose `message` is a string. The accessors' conversions never create one. |
| Classifier.ChoiceTextIsFirstChoiceText | GptDAT.h:121 | The text is found exactly when `choices` is a non-empty array whose first element has a string `text`. |
| Classifier.AbortIsFinal | GptDAT.h:97-101 | After a frame throws, later frames change nothing, because the callback has returned. |
| Classifier.ClassifyAppendsOnly | GptDAT.h:89 | Classifying more frames only extends the appended text. |
| Classifier.ErrorFrameAppendsMessage | GptDAT.h:85-90 | An error frame appends exactly its `error.message`. It is not queued, and the collected text is kept rather than cleared. |
| Classifier.TokenFrameIsQueued | GptDAT.h:91-95 | A frame without `error` is queued, with the pending text in front of it, and the pending text is cleared. |
| Classifier.ClassifyFrameKeepsText | GptDAT.h:85-95 | Handling one frame moves text between the queue and the pending text and loses none. |
| Classifier.BatchKeepsScanOrder | GptDAT.h:93 | The queue followed by the pending text spells out the frames read so far, in scan order. |
| Classifier.TokenFramesAreBatched | GptDAT.h:91-95 | When no frame is an error, every frame is queued on its own, in scan order, and nothing is appended before the batch. |
| Classifier.TokensFailIff | GptDAT.h:117-122 | Extracting tokens fails exactly when some item is neither skipped nor carries a string `choices[0].text`. |
| Classifier.TokensConcat | GptDAT.h:116-122 | The tokens of consecutive runs of items join in item order, and a failure anywhere fails the whole. |
| Classifier.AppendTextAssoc | GptDAT.h:121 | Joining texts that may have failed is associative. |
| Classifier.TokensOfTexts | GptDAT.h:115-124 | Items that all carry a text yield those texts joined in item order. |
| Classifier.TokensOfItemTexts | GptDAT.h:117-122 | Items whose contributions are `texts` yield those texts joined in item order. |
| Classifier.BatchJoinsChoiceTexts | GptDAT.h:115-124 | For a non-empty batch, the text appended after the messages is the `choices[0].text` of the parsed array's items, joined in item order. An item equal to the integer 0 adds nothing. |
| Classifier.OneBadItemLosesBatch | GptDAT.h:117-130 | One array item that is not 0 and lacks a string `choices[0].text` loses the tokens of the whole batch. |
| Classifier.EventsIsJoined | GptDAT.h:110 | Dropping the last comma of `events` leaves the queued texts separated by commas. |
| Classifier.CallbackOutcome | GptDAT.h:97-131 | The result is either `size*nmemb` (in `size_t` arithmetic) or 0. Error messages appended before a failure stay appended. A frame that throws gives 0. A chunk with nothing queued is handled in full and appends only its error messages. |
| Plugin.ResolveApiKey | GptDAT.cpp:108-118 | The key parameter wins when non-empty; otherwise the environment key is used. There is no key exactly when both are empty, and a key found is never empty. |
| Plugin.GptDAT.constructor | GptDAT.cpp:76-80 | A new operator is not completing and has an empty completion. |
| Plugin.GptDAT.Execute | GptDAT.cpp:94-161 | Without an output nothing happens. A request starts exactly on a Complete pulse with none in progress and a key found; it carries `prefix + prompt + suffix`, the stop, model and token limit, `stream` true, and the key. With no key, the message `No API key specified` is shown and nothing else changes, not even Reset. Otherwise the completion is shown only while completing, and a Reset clears the flag, the completion and the output, after the publish step. |
| Plugin.GptDAT.RequestStart | GptDAT.h:137-148 | The flag is raised first. The completion is cleared only once the transport handles exist; an init failure returns early with the flag still raised. |
| Plugin.GptDAT.RequestFail | GptDAT.h:170-176 | A failed transfer appends `Error making request: ` and the error text to the completion. |
| Plugin.GptDAT.RequestEnd | GptDAT.h:181 | The request ends with the flag lowered. |
| Plugin.GptDAT.WriteCallback | GptDAT.h:59-132 | The character loop leaves the completion extended by exactly `Callback(chunk).appended`, and returns `Callback(chunk).ret`. The old completion is always a prefix of the new one. |
| Plugin.GptDAT.Feed | GptDAT.h:69-104 | One character of the loop keeps the loop's locals equal to what the scanner and the classification of the frames so far determine. When a frame throws, it reports the abort with exactly that prefix's messages appended. |
| Plugin.GptDAT.CloseFrame | GptDAT.h:81-101 | A frame just closed is handled as the classification step says: abort on a throw, append an error's message, or queue the text and clear it. |
| Plugin.GptDAT.AppendTokens | GptDAT.h:105-131 | With nothing queued, the chunk is handled in full. Otherwise the batch array is parsed and its tokens appended once, returning `size*nmemb`. On a throw nothing is appended and 0 is returned. |
| Plugin.CollectTokens | GptDAT.h:116-122 | The token loop computes `Tokens` of the array's items: skipped items add nothing, and any other item without a string text throws. |
| Plugin.FinalAbort | GptDAT.h:97-101 | Once a prefix of the chunk throws, the whole call returns 0, with exactly that prefix's error messages appended. |
| Scenarios.TokenStream | GptDAT.h:59-132 | A chunk of complete token events, separated by text without `{`, appends the `choices[0].text` of each event, in the order the events occur, and returns `size*nmemb`. Each event parses to its own item, and the batch array reads back as those items in order. |
| Scenarios.TwoFrames | GptDAT.h:71-80 | Two complete objects back to back are cut as two frames. |
| Scenarios.ErrorBeforeEarlierToken | GptDAT.h:85-124 | When a token event is followed by an error event in one chunk, the error's message lands in the completion before the earlier event's token. |
| Scenarios.TokenThenError | GptDAT.h:85-95 | A token frame followed by an error frame: the first is queued, and the second appends its message and stays pending. |
| Scenarios.BatchOfOne | GptDAT.h:115-124 | A batch of one frame, whose array item carries the text `t`, yields exactly `t`. |
| Scenarios.FrameAfterErrorAborts | GptDAT.h:85-101 | After an error frame, the next frame is parsed glued onto the error event. When that text is not one JSON value, the call returns 0, and the error message is already appended. |
| Scenarios.BadItemLosesChunk | GptDAT.h:113-130 | In a chunk of complete token events, one batch item without a string `choices[0].text` means nothing is appended and the call returns 0, whatever the other items carry. |
| Scenarios.ResetThenChunk | GptDAT.cpp:154-160 | In the middle of a request (started, streaming, one chunk appended), a Reset clears the flag and the completion, and the next chunk still appends its text to the cleared completion while the flag stays lowered. |
| Scenarios.UnfinishedObjectDropped | GptDAT.h:66-68 | A chunk that ends inside an object appends nothing for it and still returns `size*nmemb`. The next chunk cannot deliver the object. |

`WriteCallback` is one function in the C++ source. The model splits it into
four methods, each one verified against its own contract:

- `Feed`: one character of the loop;
- `CloseFrame`: the `try` block at a cut;
- `AppendTokens`: the tail after the loop;
- `CollectTokens`: the token loop.

The locals `brackets`, `currentString` and `events` are passed in and out.

## Behaviour worth knowing

These are consequences of the code as written. A reader might expect otherwise
in each case.

- **Each chunk is framed on its own.** The scanner's state is local to one
  call. An object split across two chunks is never delivered; it is not
  reassembled (`Scenarios.UnfinishedObjectDropped`).
- **A frame that fails to parse aborts the chunk.** It is not skipped. The call
  returns 0 at once, and later frames of the same chunk are never looked at.
- **The text is not cleared after an error frame.** The next frame is parsed
  glued onto the error event, so it is usually lost as well
  (`Scenarios.FrameAfterErrorAborts`).
- **Error messages come before tokens.** Messages are appended as their frames
  are cut, and tokens only at the end of the chunk. An error therefore lands
  before the tokens of earlier frames in the same chunk
  (`Scenarios.ErrorBeforeEarlierToken`).
- **One bad item loses the whole batch.** A single batch item without a string
  `choices[0].text` makes the token loop throw, so none of the chunk's tokens
  are appended and the call returns 0 (`Scenarios.BadItemLosesChunk`).
- **Reset does not stop the stream.** The callback never reads
  `isCompleting`, so chunks arriving after a Reset append to the cleared
  completion (`Scenarios.ResetThenChunk`).
- **The "null" skip compares with the integer 0.** The skip compares items with
  `NULL`, an integer constant. It therefore skips the number 0, not a JSON
  null (`Json.IsIntZero`). Every queued frame begins with `{`, so the branch
  does not fire on well-formed input.

## Left out

- The HTTP transport: URL, headers, request body, perform and cleanup. Only
  its outcomes remain, as inputs of the request methods:
  - whether the handles could be created (`RequestStart`);
  - a failure's error text (`RequestFail`);
  - the chunks handed to `WriteCallback`.
- Threads, the detached request thread and the lock. The background effects
  are separate sequential method calls. Every background write to the fields
  (in `write_callback` and `gpt_request`) is made without the lock, which only
  the publish step in `execute` takes. Those races are not modelled.
- JSON parsing itself, and serialising the request. Parsing is the parameter
  `parse`. `Request` keeps the request's fields but not its text.
- Floating-point parameters and values: temperature, top_p, the two penalties,
  and JSON numbers with fractions. `Json.Num` holds integers only, so the
  floating-point 0.0 that the integer comparison would also match is not
  represented.
- The chunk is the given character sequence. The transport does not
  NUL-terminate its buffer, and the C++ copy reads up to the first NUL byte.
  That byte may lie before or beyond `size * nmemb` bytes. Neither the short
  read nor the read past the buffer is modelled.
- `getenv` returning no value. That is undefined behaviour in the source; the
  model treats an unset variable as the empty string.
- Console logging, plugin registration, `getGeneralInfo` and
  `setupParameters`. These are host plumbing.
- Json.Lookup: JSON objects with repeated keys read the first occurrence. How
  the library treats duplicates is not part of this model.
