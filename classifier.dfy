/**
 * What the streaming write callback does with the frames of one chunk:
 * error frames append their message at once, other frames are queued into a
 * comma-joined batch, and the batch is parsed as one array whose items'
 * `choices[0].text` are appended together at the end. JSON parsing is the
 * parameter `parse`, a partial function (`None` when the parser throws).
 */
module Classifier {
  import opened Wrappers
  import opened Json
  import opened Framer

  /** `cur_event["error"]["message"]` read as a string; `None` when the library throws. */
  function ErrorMessage(ev: Json): Option<string> {
    match Member(ev, "error")
    case None => None
    case Some(e) =>
      match Member(e, "message")
      case None => None
      case Some(m) => AsString(m)
  }

  /**
   * The conversions of the mutable accessors never help: the message is found
   * exactly when `error` holds a value whose `message` is a string.
   */
  lemma ErrorMessageIsErrorDotMessage(ev: Json)
    ensures ErrorMessage(ev).Some? <==>
      Get(ev, "error").Some? && Get(Get(ev, "error").value, "message").Some? &&
      Get(Get(ev, "error").value, "message").value.Str?
    ensures ErrorMessage(ev).Some? ==>
      Get(Get(ev, "error").value, "message") == Some(Str(ErrorMessage(ev).value))
  {
  }

  /** `item["choices"][0]["text"]` read as a string; `None` when the library throws. */
  function ChoiceText(item: Json): Option<string> {
    match Member(item, "choices")
    case None => None
    case Some(cs) =>
      match At0(cs)
      case None => None
      case Some(first) =>
        match Member(first, "text")
        case None => None
        case Some(t) => AsString(t)
  }

  /**
   * The text is found exactly when `choices` is a non-empty array whose first
   * element holds a string `text`; a null anywhere on the path makes it throw.
   */
  lemma ChoiceTextIsFirstChoiceText(item: Json)
    ensures ChoiceText(item).Some? <==>
      var cs := Get(item, "choices");
      cs.Some? && cs.value.Arr? && cs.value.items != [] &&
      Get(cs.value.items[0], "text").Some? && Get(cs.value.items[0], "text").value.Str?
    ensures ChoiceText(item).Some? ==>
      Get(Get(item, "choices").value.items[0], "text") == Some(Str(ChoiceText(item).value))
  {
  }

  /** What the `try` block at a cut makes of the collected text. */
  datatype FrameKind = Throws | ErrorFrame(message: string) | TokenFrame

  /** A parsed event: an object with an `error` member is an error, anything else is a token frame. */
  function EventKind(ev: Json): FrameKind {
    if Contains(ev, "error") then
      match ErrorMessage(ev)
      case None => Throws
      case Some(m) => ErrorFrame(m)
    else TokenFrame
  }

  /** Error frames are exactly the events with an `error` member whose `message` is a string. */
  lemma EventKindCases(ev: Json, m: string)
    ensures EventKind(ev) == ErrorFrame(m) <==>
      Get(ev, "error").Some? && Get(Get(ev, "error").value, "message") == Some(Str(m))
    ensures EventKind(ev) == TokenFrame <==> Get(ev, "error").None?
    ensures EventKind(ev) == Throws <==>
      Get(ev, "error").Some? && !(Get(Get(ev, "error").value, "message").Some? &&
                                  Get(Get(ev, "error").value, "message").value.Str?)
  {
    ErrorMessageIsErrorDotMessage(ev);
  }

  function FrameKindOf(cur: string, parse: string -> Option<Json>): FrameKind {
    match parse(cur)
    case None => Throws
    case Some(ev) => EventKind(ev)
  }

  /**
   * The per-frame part of the callback, folded over the frames in scan order.
   * `pending` is what the callback's `currentString` holds once the scanner's
   * own partial text is removed: after an error frame it is not cleared.
   */
  datatype Classified =
    | Classified(pending: string, batch: seq<string>, appended: string)
    | Aborted(appended: string)

  const Unclassified := Classified("", [], "")

  function ClassifyFrame(c: Classified, frame: string, parse: string -> Option<Json>): Classified {
    match c
    case Aborted(_) => c
    case Classified(pending, batch, appended) =>
      var cur := pending + frame;
      match FrameKindOf(cur, parse)
      case Throws => Aborted(appended)
      case ErrorFrame(m) => Classified(cur, batch, appended + m)
      case TokenFrame => Classified("", batch + [cur], appended)
  }

  function Classify(frames: seq<string>, parse: string -> Option<Json>): Classified
    decreases |frames|
  {
    if frames == [] then Unclassified
    else ClassifyFrame(Classify(frames[..|frames| - 1], parse), frames[|frames| - 1], parse)
  }

  function Concat(parts: seq<string>): string
    decreases |parts|
  {
    if parts == [] then "" else Concat(parts[..|parts| - 1]) + parts[|parts| - 1]
  }

  lemma ClassifySnoc(fs: seq<string>, f: string, parse: string -> Option<Json>)
    ensures Classify(fs + [f], parse) == ClassifyFrame(Classify(fs, parse), f, parse)
  {
    assert (fs + [f])[..|fs|] == fs;
  }

  /** A failed parse ends the classification for good: later frames change nothing. */
  lemma {:induction false} AbortIsFinal(fs: seq<string>, gs: seq<string>, parse: string -> Option<Json>)
    requires Classify(fs, parse).Aborted?
    ensures Classify(fs + gs, parse) == Classify(fs, parse)
    decreases |gs|
  {
    if gs != [] {
      var gs' := gs[..|gs| - 1];
      AbortIsFinal(fs, gs', parse);
      assert fs + gs == (fs + gs') + [gs[|gs| - 1]];
      ClassifySnoc(fs + gs', gs[|gs| - 1], parse);
    } else {
      assert fs + gs == fs;
    }
  }

  /** Classification only appends: the text appended for some frames is a prefix of that for more frames. */
  lemma {:induction false} ClassifyAppendsOnly(fs: seq<string>, gs: seq<string>, parse: string -> Option<Json>)
    ensures Classify(fs, parse).appended <= Classify(fs + gs, parse).appended
    decreases |gs|
  {
    if gs == [] {
      assert fs + gs == fs;
    } else {
      var gs' := gs[..|gs| - 1];
      ClassifyAppendsOnly(fs, gs', parse);
      assert fs + gs == (fs + gs') + [gs[|gs| - 1]];
      ClassifySnoc(fs + gs', gs[|gs| - 1], parse);
    }
  }

  /**
   * An error frame appends exactly its message and is not queued; the text
   * it was parsed from stays pending, in front of the next frame.
   */
  lemma ErrorFrameAppendsMessage(fs: seq<string>, f: string, parse: string -> Option<Json>, ev: Json, m: string)
    requires Classify(fs, parse).Classified?
    requires parse(Classify(fs, parse).pending + f) == Some(ev)
    requires Contains(ev, "error") && ErrorMessage(ev) == Some(m)
    ensures var c := Classify(fs, parse);
      Classify(fs + [f], parse) == Classified(c.pending + f, c.batch, c.appended + m)
  {
    ClassifySnoc(fs, f, parse);
  }

  /** A frame that parses and is not an error is queued together with the pending text, which is then cleared. */
  lemma TokenFrameIsQueued(fs: seq<string>, f: string, parse: string -> Option<Json>)
    requires Classify(fs, parse).Classified?
    requires parse(Classify(fs, parse).pending + f).Some?
    requires !Contains(parse(Classify(fs, parse).pending + f).value, "error")
    ensures var c := Classify(fs, parse);
      Classify(fs + [f], parse) == Classified("", c.batch + [c.pending + f], c.appended)
  {
    ClassifySnoc(fs, f, parse);
  }

  lemma ConcatSnoc(parts: seq<string>, x: string)
    ensures Concat(parts + [x]) == Concat(parts) + x
  {
    assert (parts + [x])[..|parts|] == parts;
  }

  /** Classifying one more frame moves text between the batch and the pending text but keeps their concatenation. */
  lemma ClassifyFrameKeepsText(c: Classified, f: string, parse: string -> Option<Json>)
    requires c.Classified? && ClassifyFrame(c, f, parse).Classified?
    ensures Concat(ClassifyFrame(c, f, parse).batch) + ClassifyFrame(c, f, parse).pending ==
      Concat(c.batch) + c.pending + f
  {
    var cur := c.pending + f;
    var before := Concat(c.batch);
    assert before + cur == before + c.pending + f;
    match FrameKindOf(cur, parse)
    case ErrorFrame(m) =>
      assert ClassifyFrame(c, f, parse) == Classified(cur, c.batch, c.appended + m);
    case TokenFrame =>
      assert ClassifyFrame(c, f, parse) == Classified("", c.batch + [cur], c.appended);
      ConcatSnoc(c.batch, cur);
      assert Concat(c.batch + [cur]) + "" == before + cur;
  }

  /**
   * Queued texts keep scan order and lose nothing: the batch followed by the
   * pending text spells out exactly the frames read so far.
   */
  lemma {:induction false} BatchKeepsScanOrder(fs: seq<string>, parse: string -> Option<Json>)
    requires Classify(fs, parse).Classified?
    ensures Concat(Classify(fs, parse).batch) + Classify(fs, parse).pending == Concat(fs)
    decreases |fs|
  {
    if fs != [] {
      var fs' := fs[..|fs| - 1];
      var f := fs[|fs| - 1];
      assert fs == fs' + [f];
      ClassifySnoc(fs', f, parse);
      if Classify(fs', parse).Aborted? {
        AbortIsFinal(fs', [f], parse);
        assert false;
      }
      BatchKeepsScanOrder(fs', parse);
      ClassifyFrameKeepsText(Classify(fs', parse), f, parse);
      ConcatSnoc(fs', f);
    }
  }

  /** When no frame is an error, every frame is queued on its own, in scan order, and nothing is appended yet. */
  lemma {:induction false} TokenFramesAreBatched(fs: seq<string>, parse: string -> Option<Json>)
    requires forall i | 0 <= i < |fs| :: parse(fs[i]).Some? && !Contains(parse(fs[i]).value, "error")
    ensures Classify(fs, parse) == Classified("", fs, "")
    decreases |fs|
  {
    if fs != [] {
      var fs' := fs[..|fs| - 1];
      var f := fs[|fs| - 1];
      TokenFramesAreBatched(fs', parse);
      assert fs == fs' + [f];
      ClassifySnoc(fs', f, parse);
      assert "" + f == f;
    }
  }

  /** One item's contribution: `IsIntZero` items are skipped, any other item must carry a `choices[0].text` string. */
  function ItemText(item: Json): Option<string> {
    if IsIntZero(item) then Some("") else ChoiceText(item)
  }

  /** Appending texts where either side may have thrown. */
  function AppendText(a: Option<string>, b: Option<string>): Option<string> {
    if a.Some? && b.Some? then Some(a.value + b.value) else None
  }

  /** The tokens of the batch array, joined in item order. */
  function Tokens(items: seq<Json>): Option<string>
    decreases |items|
  {
    if items == [] then Some("")
    else AppendText(Tokens(items[..|items| - 1]), ItemText(items[|items| - 1]))
  }

  /** Token extraction fails exactly when some item is neither skipped nor carries a `choices[0].text` string. */
  lemma {:induction false} TokensFailIff(items: seq<Json>)
    ensures Tokens(items).None? <==>
      exists i | 0 <= i < |items| :: !IsIntZero(items[i]) && ChoiceText(items[i]).None?
    decreases |items|
  {
    if items != [] {
      var n := |items|;
      TokensFailIff(items[..n - 1]);
      if Tokens(items[..n - 1]).None? {
        var i :| 0 <= i < n - 1 && !IsIntZero(items[..n - 1][i]) && ChoiceText(items[..n - 1][i]).None?;
        assert items[i] == items[..n - 1][i];
      }
      if exists i | 0 <= i < n :: !IsIntZero(items[i]) && ChoiceText(items[i]).None? {
        var i :| 0 <= i < n && !IsIntZero(items[i]) && ChoiceText(items[i]).None?;
        if i < n - 1 {
          assert items[..n - 1][i] == items[i];
        }
      }
    }
  }

  /** Tokens of consecutive runs of items concatenate in order; a failure anywhere fails the whole. */
  lemma {:induction false} TokensConcat(xs: seq<Json>, ys: seq<Json>)
    ensures Tokens(xs + ys) == AppendText(Tokens(xs), Tokens(ys))
    decreases |ys|
  {
    if ys == [] {
      assert xs + ys == xs;
      if Tokens(xs).Some? {
        assert Tokens(xs).value + "" == Tokens(xs).value;
      }
    } else {
      var ys' := ys[..|ys| - 1];
      var y := ys[|ys| - 1];
      TokensConcat(xs, ys');
      assert (xs + ys)[..|xs + ys| - 1] == xs + ys';
      assert (xs + ys)[|xs + ys| - 1] == y;
      assert ys == ys' + [y];
      var a, b, t := Tokens(xs), Tokens(ys'), ItemText(y);
      assert Tokens(xs + ys) == AppendText(AppendText(a, b), t);
      assert Tokens(ys) == AppendText(b, t);
      AppendTextAssoc(a, b, t);
    }
  }

  lemma AppendTextAssoc(a: Option<string>, b: Option<string>, t: Option<string>)
    ensures AppendText(AppendText(a, b), t) == AppendText(a, AppendText(b, t))
  {
    if a.Some? && b.Some? && t.Some? {
      assert (a.value + b.value) + t.value == a.value + (b.value + t.value);
    }
  }

  /** Items that all carry a text yield the texts joined in item order. */
  lemma {:induction false} TokensOfTexts(items: seq<Json>, texts: seq<string>)
    requires |items| == |texts|
    requires forall i | 0 <= i < |items| :: ChoiceText(items[i]) == Some(texts[i])
    ensures Tokens(items) == Some(Concat(texts))
    decreases |items|
  {
    if items != [] {
      var n := |items|;
      TokensOfTexts(items[..n - 1], texts[..n - 1]);
      assert !IsIntZero(items[n - 1]);
    }
  }

  /** Items whose contributions are `texts` yield those texts joined in item order. */
  lemma {:induction false} TokensOfItemTexts(items: seq<Json>, texts: seq<string>)
    requires |items| == |texts|
    requires forall i | 0 <= i < |items| :: ItemText(items[i]) == Some(texts[i])
    ensures Tokens(items) == Some(Concat(texts))
    decreases |items|
  {
    if items != [] {
      var n := |items|;
      TokensOfItemTexts(items[..n - 1], texts[..n - 1]);
    }
  }

  /**
   * What the end of the callback appends for a non-empty batch: the
   * `choices[0].text` of the parsed array's items joined in item order, an
   * item equal to the integer 0 adding nothing.
   */
  lemma BatchJoinsChoiceTexts(batch: seq<string>, parse: string -> Option<Json>, items: seq<Json>, texts: seq<string>)
    requires batch != [] && parse(BatchText(batch)) == Some(Arr(items))
    requires |items| == |texts|
    requires forall i | 0 <= i < |items| ::
      if IsIntZero(items[i]) then texts[i] == "" else ChoiceText(items[i]) == Some(texts[i])
    ensures BatchTokens(batch, parse) == Some(Concat(texts))
  {
    TokensOfItemTexts(items, texts);
    assert Elements(Arr(items)) == items;
  }

  /** A single array item that is not 0 and carries no string `choices[0].text` loses the tokens of the whole batch. */
  lemma OneBadItemLosesBatch(batch: seq<string>, parse: string -> Option<Json>, items: seq<Json>, k: nat)
    requires batch != [] && parse(BatchText(batch)) == Some(Arr(items))
    requires k < |items| && !IsIntZero(items[k]) && ChoiceText(items[k]).None?
    ensures BatchTokens(batch, parse) == None
  {
    TokensFailIff(items);
    assert Elements(Arr(items)) == items;
  }

  /** The `events` string the callback builds: every queued text followed by a comma. */
  function Events(batch: seq<string>): string
    decreases |batch|
  {
    if batch == [] then "" else Events(batch[..|batch| - 1]) + batch[|batch| - 1] + ","
  }

  lemma EventsSnoc(batch: seq<string>, x: string)
    ensures Events(batch + [x]) == Events(batch) + x + ","
  {
    assert (batch + [x])[..|batch|] == batch;
  }

  /** The queued texts separated by commas. */
  function Joined(batch: seq<string>): string
    decreases |batch|
  {
    if batch == [] then ""
    else if |batch| == 1 then batch[0]
    else Joined(batch[..|batch| - 1]) + "," + batch[|batch| - 1]
  }

  /** Dropping the last comma of the events string leaves the queued texts joined by commas. */
  lemma {:induction false} EventsIsJoined(batch: seq<string>)
    requires batch != []
    ensures Events(batch) == Joined(batch) + ","
    decreases |batch|
  {
    if |batch| == 1 {
      assert batch[..0] == [];
    } else {
      EventsIsJoined(batch[..|batch| - 1]);
    }
  }

  /** The text parsed as the token array. */
  function BatchText(batch: seq<string>): string {
    "[" + Joined(batch) + "]"
  }

  const SizeModulus := 0x1_0000_0000_0000_0000

  /** An unsigned 64-bit `size_t`. */
  type SizeT = x: int | 0 <= x < 0x1_0000_0000_0000_0000

  /** `size * nmemb` in `size_t` arithmetic, which wraps around. */
  function RealSize(size: SizeT, nmemb: SizeT): SizeT {
    (size * nmemb) % SizeModulus
  }

  /** What one call of the callback appends to the completion, and what it returns. */
  datatype Outcome = Outcome(appended: string, ret: SizeT)

  /**
   * The tail of the callback: with nothing queued there is nothing to add;
   * otherwise the batch array is parsed and its tokens joined. `None` when
   * the parse or an item throws.
   */
  function BatchTokens(batch: seq<string>, parse: string -> Option<Json>): Option<string> {
    if batch == [] then Some("")
    else match parse(BatchText(batch))
      case None => None
      case Some(j) => Tokens(Elements(j))
  }

  /** One call of the write callback on `chunk`, whose length in bytes the transport reports as `size * nmemb`. */
  function Callback(chunk: string, size: SizeT, nmemb: SizeT, parse: string -> Option<Json>): Outcome {
    var c := Classify(Frames(chunk), parse);
    if c.Aborted? then Outcome(c.appended, 0)
    else match BatchTokens(c.batch, parse)
      case None => Outcome(c.appended, 0)
      case Some(t) => Outcome(c.appended + t, RealSize(size, nmemb))
  }


  /**
   * The callback's result is the transport's byte count or 0; the error
   * messages met before a failure stay appended; a chunk whose frames are all
   * errors (or that has none) is handled in full; and a parse failure among
   * the frames reports 0.
   */
  lemma CallbackOutcome(chunk: string, size: SizeT, nmemb: SizeT, parse: string -> Option<Json>)
    ensures Callback(chunk, size, nmemb, parse).ret == 0 ||
            Callback(chunk, size, nmemb, parse).ret == RealSize(size, nmemb)
    ensures Classify(Frames(chunk), parse).appended <= Callback(chunk, size, nmemb, parse).appended
    ensures Classify(Frames(chunk), parse).Aborted? ==>
      Callback(chunk, size, nmemb, parse) == Outcome(Classify(Frames(chunk), parse).appended, 0)
    ensures Classify(Frames(chunk), parse).Classified? && Classify(Frames(chunk), parse).batch == [] ==>
      Callback(chunk, size, nmemb, parse) == Outcome(Classify(Frames(chunk), parse).appended, RealSize(size, nmemb))
  {
    var c := Classify(Frames(chunk), parse);
    if c.Classified? && c.batch == [] {
      assert c.appended + "" == c.appended;
    }
  }
}
