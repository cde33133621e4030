/**
 * The operator instance: the in-progress flag and the completion text, the
 * host's per-frame `Execute`, and the effects the background request has on
 * them. Threads, the lock and the HTTP transport are outside the model: the
 * background effects are separate, sequential method calls, and the parts of
 * the host and the transport that matter are parameters and results.
 */
module Plugin {
  import opened Wrappers
  import opened Json
  import opened Framer
  import opened Classifier

  const NoKeyText := "No API key specified"
  const RequestErrorPrefix := "Error making request: "

  /** The host parameters `execute` reads (the floating-point ones are not modelled). */
  datatype Params = Params(
    apiKey: string, model: string, prefix: string, prompt: string, suffix: string,
    stop: string, maxTokens: int)

  /** The request body handed to the background request (floating-point fields left out). */
  datatype Request = Request(
    prompt: string, stop: string, model: string, maxTokens: int, stream: bool, apiKey: string)

  /** The key used for a request: the parameter, else the environment key, else none at all. */
  function ResolveApiKey(parKey: string, envKey: string): (key: Option<string>)
    ensures key.None? <==> parKey == "" && envKey == ""
    ensures key.Some? ==> key.value != ""
    ensures parKey != "" ==> key == Some(parKey)
    ensures parKey == "" && key.Some? ==> key.value == envKey
  {
    if parKey != "" then Some(parKey) else if envKey != "" then Some(envKey) else None
  }

  class GptDAT {
    var isCompleting: bool
    var currentCompletion: string

    constructor ()
      ensures !isCompleting && currentCompletion == ""
    {
      isCompleting := false;
      currentCompletion := "";
    }

    /**
     * One cook of the operator. `hasOutput` is whether the host passed an
     * output; `shown` is the last text set on it during this call (`None` when
     * none was set) and `started` the request handed to a background thread.
     */
    method Execute(hasOutput: bool, complete: int, reset: int, par: Params, envKey: string)
      returns (shown: Option<string>, started: Option<Request>)
      modifies this
      ensures !hasOutput ==>
        shown == None && started == None &&
        isCompleting == old(isCompleting) && currentCompletion == old(currentCompletion)
      // a Complete pulse starts a request only when none is in progress and a key is found
      ensures started.Some? <==>
        hasOutput && complete == 1 && !old(isCompleting) && ResolveApiKey(par.apiKey, envKey).Some?
      ensures started.Some? ==>
        started.value == Request(par.prefix + par.prompt + par.suffix, par.stop, par.model,
                                 par.maxTokens, true, ResolveApiKey(par.apiKey, envKey).value)
      // no key: the message is shown and nothing else happens, not even a reset
      ensures hasOutput && complete == 1 && !old(isCompleting) && ResolveApiKey(par.apiKey, envKey).None? ==>
        shown == Some(NoKeyText) &&
        isCompleting == old(isCompleting) && currentCompletion == old(currentCompletion)
      // otherwise: publish while completing, then a reset wins
      ensures hasOutput && !(complete == 1 && !old(isCompleting) && ResolveApiKey(par.apiKey, envKey).None?) ==>
        if reset == 1 then
          !isCompleting && currentCompletion == "" && shown == Some("")
        else
          isCompleting == (old(isCompleting) || started.Some?) &&
          currentCompletion == old(currentCompletion) &&
          shown == (if isCompleting then Some(currentCompletion) else None)
    {
      shown, started := None, None;
      if !hasOutput {
        return;
      }
      if complete == 1 && !isCompleting {
        var apikey := par.apiKey;
        if |apikey| == 0 {
          apikey := envKey;
          if |apikey| == 0 {
            shown := Some(NoKeyText);
            return;
          }
        }
        isCompleting := true;
        started := Some(Request(par.prefix + par.prompt + par.suffix, par.stop, par.model,
                                par.maxTokens, true, apikey));
      }
      if isCompleting {
        shown := Some(currentCompletion);
      }
      if reset == 1 {
        isCompleting := false;
        currentCompletion := "";
        shown := Some("");
      }
    }

    /**
     * The start of the background request: the flag is raised, and only when
     * the transport handles could be created is the completion cleared (an
     * early return leaves the flag raised).
     */
    method RequestStart(initOk: bool) returns (streaming: bool)
      modifies this
      ensures isCompleting && streaming == initOk
      ensures currentCompletion == if initOk then "" else old(currentCompletion)
    {
      isCompleting := true;
      if !initOk {
        return false;
      }
      currentCompletion := "";
      return true;
    }

    /** A failed transfer appends its description to the completion. */
    method RequestFail(err: string)
      modifies this`currentCompletion
      ensures currentCompletion == old(currentCompletion) + RequestErrorPrefix + err
      ensures old(currentCompletion) <= currentCompletion
    {
      currentCompletion := currentCompletion + (RequestErrorPrefix + err);
    }

    /** The end of the background request lowers the flag. */
    method RequestEnd()
      modifies this`isCompleting
      ensures !isCompleting
    {
      isCompleting := false;
    }

    /**
     * The streaming write callback on one chunk: scans it brace by brace,
     * appends error messages as their frames are cut, queues the other frames
     * and appends their tokens at the end. Its result is `size * nmemb`, or 0
     * when a parse or a conversion throws.
     */
    method WriteCallback(contents: string, size: SizeT, nmemb: SizeT, parse: string -> Option<Json>)
      returns (r: SizeT)
      modifies this`currentCompletion
      ensures currentCompletion == old(currentCompletion) + Callback(contents, size, nmemb, parse).appended
      ensures r == Callback(contents, size, nmemb, parse).ret
      ensures old(currentCompletion) <= currentCompletion
    {
      var realsize := RealSize(size, nmemb);
      var currentString := "";
      var events := "";
      var brackets := 0;
      for i := 0 to |contents|
        invariant Tracks(contents[..i], brackets, currentString, events, currentCompletion, old(currentCompletion), parse)
      {
        assert contents[..i + 1] == contents[..i] + [contents[i]];
        var aborted;
        aborted, brackets, currentString, events :=
          Feed(contents[i], brackets, currentString, events, contents[..i], old(currentCompletion), parse);
        if aborted {
          FinalAbort(contents, i + 1, parse, size, nmemb);
          return 0;
        }
      }
      assert contents[..|contents|] == contents;
      ghost var cls := Classify(Frames(contents), parse);
      r := AppendTokens(events, cls.batch, realsize, parse);
      CallbackTail(contents, size, nmemb, parse);
      ghost var tail := BatchTokens(cls.batch, parse);
      if tail.Some? {
        AppendAssoc(old(currentCompletion), cls.appended, tail.value);
      }
    }

    /**
     * One character of the chunk, as the callback's loop handles it: an
     * opening brace deepens the nesting, text outside any object is skipped,
     * text inside one is kept, and the closing brace that returns to depth 0
     * closes a frame. `aborted` reports that closing it threw.
     */
    method Feed(c: char, brackets: int, currentString: string, events: string,
                ghost seen: string, ghost prior: string, parse: string -> Option<Json>)
      returns (aborted: bool, brackets': int, currentString': string, events': string)
      requires Tracks(seen, brackets, currentString, events, currentCompletion, prior, parse)
      modifies this`currentCompletion
      ensures aborted ==>
        Classify(Frames(seen + [c]), parse).Aborted? &&
        currentCompletion == prior + Classify(Frames(seen + [c]), parse).appended
      ensures !aborted ==> Tracks(seen + [c], brackets', currentString', events', currentCompletion, prior, parse)
    {
      ScanSnoc(seen, c);
      ghost var before := Scan(seen);
      ghost var cls := Classify(before.frames, parse);
      aborted, brackets', currentString', events' := false, brackets, currentString, events;
      if c == '{' {
        brackets' := brackets' + 1;
      }
      if brackets' == 0 {
        return;
      }
      currentString' := currentString' + [c];
      if c == '}' {
        brackets' := brackets' - 1;
        if brackets' == 0 {
          ghost var frame := before.partial + [c];
          ClassifySnoc(before.frames, frame, parse);
          aborted, currentString', events' := CloseFrame(currentString', events', cls, frame, prior, parse);
        }
      }
    }

    /**
     * A frame has just been closed: `currentString`, the pending text followed
     * by the frame, is parsed; an error event appends its message and stays
     * pending, any other event is queued and the pending text cleared.
     * `aborted` reports a parse or a conversion that throws.
     */
    method CloseFrame(currentString: string, events: string, ghost cls: Classified, ghost frame: string,
                      ghost prior: string, parse: string -> Option<Json>)
      returns (aborted: bool, pending: string, queued: string)
      requires cls.Classified? && currentString == cls.pending + frame
      requires events == Events(cls.batch) && currentCompletion == prior + cls.appended
      modifies this`currentCompletion
      ensures aborted <==> ClassifyFrame(cls, frame, parse) == Aborted(cls.appended)
      ensures aborted ==> currentCompletion == old(currentCompletion)
      ensures !aborted ==>
        var next := ClassifyFrame(cls, frame, parse);
        next.Classified? && pending == next.pending && queued == Events(next.batch) &&
        currentCompletion == prior + next.appended
    {
      var j := parse(currentString);
      if j.None? {
        return true, currentString, events;
      }
      var event := j.value;
      if Contains(event, "error") {
        var message := ErrorMessage(event);
        if message.None? {
          return true, currentString, events;
        }
        assert prior + (cls.appended + message.value) == (prior + cls.appended) + message.value;
        currentCompletion := currentCompletion + message.value;
        return false, currentString, events;
      }
      EventsSnoc(cls.batch, currentString);
      return false, "", events + currentString + ",";
    }

    /**
     * The end of the callback, once the whole chunk is scanned: the queued
     * frames are parsed as one array and the tokens of its items are appended
     * together. `events` is the queued texts, each followed by a comma.
     */
    method AppendTokens(events: string, ghost batch: seq<string>, realsize: SizeT, parse: string -> Option<Json>)
      returns (r: SizeT)
      requires events == Events(batch)
      modifies this`currentCompletion
      ensures BatchTokens(batch, parse).Some? ==>
        currentCompletion == old(currentCompletion) + BatchTokens(batch, parse).value && r == realsize
      ensures BatchTokens(batch, parse).None? ==> currentCompletion == old(currentCompletion) && r == 0
    {
      if events == "" {
        assert batch == [];
        return realsize;
      }
      EventsIsJoined(batch);
      var joined := events[..|events| - 1];
      assert "[" + joined + "]" == BatchText(batch);
      var j := parse("[" + joined + "]");
      if j.None? {
        return 0;
      }
      var tokens := CollectTokens(Elements(j.value));
      if tokens.None? {
        return 0;
      }
      currentCompletion := currentCompletion + tokens.value;
      return realsize;
    }
  }

  /**
   * The token loop at the end of the callback: each item of the parsed array
   * contributes its first choice's text, an item equal to the integer 0
   * contributes nothing, and any other item makes the conversion throw.
   */
  method CollectTokens(items: seq<Json>) returns (tokens: Option<string>)
    ensures tokens == Tokens(items)
  {
    var text := "";
    for k := 0 to |items|
      invariant Tokens(items[..k]) == Some(text)
    {
      var item := items[k];
      assert items[..k + 1] == items[..k] + [item];
      if IsIntZero(item) {
        assert text + "" == text;
        continue;
      }
      var choice := ChoiceText(item);
      if choice.None? {
        TokensConcat(items[..k + 1], items[k + 1..]);
        assert items[..k + 1] + items[k + 1..] == items;
        return None;
      }
      text := text + choice.value;
    }
    assert items[..|items|] == items;
    return Some(text);
  }

  /**
   * The callback's local state after the prefix `seen` of the chunk, as the
   * scanner and the classification of its frames determine it: the nesting
   * depth, the pending text followed by the open object, the queued texts
   * each followed by a comma, and the completion extended by the error
   * messages met so far.
   */
  ghost predicate Tracks(seen: string, brackets: int, currentString: string, events: string,
                         completion: string, prior: string, parse: string -> Option<Json>)
  {
    var scan := Scan(seen);
    var cls := Classify(scan.frames, parse);
    cls.Classified? && brackets == scan.depth && currentString == cls.pending + scan.partial &&
    events == Events(cls.batch) && completion == prior + cls.appended
  }

  /** Once the chunk is scanned without a throw, the batch decides the rest of the call. */
  lemma CallbackTail(contents: string, size: SizeT, nmemb: SizeT, parse: string -> Option<Json>)
    ensures var cls := Classify(Frames(contents), parse);
      cls.Classified? ==>
        var tail := BatchTokens(cls.batch, parse);
        Callback(contents, size, nmemb, parse) ==
          if tail.Some? then Outcome(cls.appended + tail.value, RealSize(size, nmemb)) else Outcome(cls.appended, 0)
  {
  }

  lemma AppendAssoc(a: string, b: string, c: string)
    ensures (a + b) + c == a + (b + c)
  {
  }

  /** Once the frames of a prefix of the chunk abort, so does the whole chunk, with the same appended text. */
  lemma FinalAbort(contents: string, i: nat, parse: string -> Option<Json>, size: SizeT, nmemb: SizeT)
    requires i <= |contents|
    requires Classify(Frames(contents[..i]), parse).Aborted?
    ensures Callback(contents, size, nmemb, parse) ==
      Outcome(Classify(Frames(contents[..i]), parse).appended, 0)
  {
    assert contents[..i] + contents[i..] == contents;
    FramesOfPrefix(contents[..i], contents[i..]);
    var fs := Frames(contents[..i]);
    var all := Frames(contents);
    assert all == fs + all[|fs|..];
    AbortIsFinal(fs, all[|fs|..], parse);
  }
}
