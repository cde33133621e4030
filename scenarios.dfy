/**
 * Whole-chunk consequences of the write callback: what a chunk of well-formed
 * events yields, and the three ways the callback's behaviour departs from a
 * plain "one event, one token" reading (error text ordering, a pending error
 * frame swallowing the next one, and objects split across chunks).
 */
module Scenarios {
  import opened Wrappers
  import opened Json
  import opened Framer
  import opened Classifier
  import opened Plugin

  /**
   * A chunk of complete token events, separated by text without `{`, appends
   * the events' texts in order and reports the whole chunk as handled.
   * `items[i]` is what the parser reads from `objs[i]`, and the batch array
   * is read back as those same items in the same order.
   */
  lemma TokenStream(objs: seq<string>, fillers: seq<string>, items: seq<Json>, texts: seq<string>,
                    size: SizeT, nmemb: SizeT, parse: string -> Option<Json>)
    requires |fillers| == |objs| + 1
    requires forall i | 0 <= i < |objs| :: IsObject(objs[i])
    requires forall i | 0 <= i < |fillers| :: NoOpenBrace(fillers[i])
    requires |items| == |objs| && |texts| == |objs|
    requires forall i | 0 <= i < |objs| :: parse(objs[i]) == Some(items[i]) && !Contains(items[i], "error")
    requires forall i | 0 <= i < |objs| :: ChoiceText(items[i]) == Some(texts[i])
    requires objs != [] ==> parse(BatchText(objs)) == Some(Arr(items))
    ensures Callback(Weave(objs, fillers), size, nmemb, parse) == Outcome(Concat(texts), RealSize(size, nmemb))
  {
    FramesOfWeave(objs, fillers);
    TokenFramesAreBatched(objs, parse);
    if objs != [] {
      TokensOfTexts(items, texts);
      assert Elements(Arr(items)) == items;
    }
    assert "" + Concat(texts) == Concat(texts);
  }

  /** Two complete objects back to back are cut as two frames. */
  lemma TwoFrames(a: string, b: string)
    requires IsObject(a) && IsObject(b)
    ensures Frames(a + b) == [a, b]
  {
    var objs, fillers := [a, b], ["", "", ""];
    FramesOfWeave(objs, fillers);
    assert Weave(objs[..1], fillers[..2]) == "" + a + "";
    assert Weave(objs, fillers) == a + b;
  }

  /**
   * An error event after a token event in the same chunk: the error message
   * is appended when its frame is cut, the token only at the end of the
   * chunk, so the message comes first in the completion.
   */
  lemma ErrorBeforeEarlierToken(o: string, e: string, ev: Json, m: string, item: Json, t: string,
                                size: SizeT, nmemb: SizeT, parse: string -> Option<Json>)
    requires IsObject(o) && IsObject(e)
    requires parse(o).Some? && !Contains(parse(o).value, "error")
    requires parse(e) == Some(ev) && Contains(ev, "error") && ErrorMessage(ev) == Some(m)
    requires parse(BatchText([o])) == Some(Arr([item])) && ChoiceText(item) == Some(t)
    ensures Callback(o + e, size, nmemb, parse) == Outcome(m + t, RealSize(size, nmemb))
  {
    TokenThenError(o, e, ev, m, parse);
    BatchOfOne(o, item, t, parse);
    assert "" + m == m;
  }

  /** A token frame followed by an error frame: the first is queued, the second appends its message and stays pending. */
  lemma TokenThenError(o: string, e: string, ev: Json, m: string, parse: string -> Option<Json>)
    requires IsObject(o) && IsObject(e)
    requires parse(o).Some? && !Contains(parse(o).value, "error")
    requires parse(e) == Some(ev) && Contains(ev, "error") && ErrorMessage(ev) == Some(m)
    ensures Classify(Frames(o + e), parse) == Classified(e, [o], "" + m)
  {
    TwoFrames(o, e);
    TokenFramesAreBatched([o], parse);
    assert [o] + [e] == [o, e];
    assert "" + e == e;
    ErrorFrameAppendsMessage([o], e, parse, ev, m);
  }

  /** A batch of one frame whose array item carries the text `t` yields exactly `t`. */
  lemma BatchOfOne(o: string, item: Json, t: string, parse: string -> Option<Json>)
    requires parse(BatchText([o])) == Some(Arr([item])) && ChoiceText(item) == Some(t)
    ensures BatchTokens([o], parse) == Some(t)
  {
    TokensOfTexts([item], [t]);
    assert Concat([t]) == t by {
      assert [t][..0] == [];
    }
    assert Elements(Arr([item])) == [item];
  }

  /**
   * After an error frame the collected text is kept, so the next frame is
   * parsed together with the error event; when that text is not one JSON
   * value the parser throws and the chunk is reported as failed, with the
   * error message already appended.
   */
  lemma FrameAfterErrorAborts(e: string, o: string, ev: Json, m: string,
                              size: SizeT, nmemb: SizeT, parse: string -> Option<Json>)
    requires IsObject(e) && IsObject(o)
    requires parse(e) == Some(ev) && Contains(ev, "error") && ErrorMessage(ev) == Some(m)
    requires parse(e + o) == None
    ensures Callback(e + o, size, nmemb, parse) == Outcome(m, 0)
  {
    TwoFrames(e, o);
    assert [e] == [] + [e];
    assert "" + e == e;
    ErrorFrameAppendsMessage([], e, parse, ev, m);
    assert [e] + [o] == [e, o];
    ClassifySnoc([e], o, parse);
    assert Classify([e], parse) == Classified(e, [], m);
    assert Classify([e, o], parse) == Aborted(m);
  }

  /**
   * A chunk that ends inside an object appends nothing for it and still
   * reports the whole chunk as handled; the next chunk starts from scratch,
   * so the object is never delivered.
   */
  lemma UnfinishedObjectDropped(x: string, o: string, k: nat, size: SizeT, nmemb: SizeT,
                                parse: string -> Option<Json>)
    requires NoOpenBrace(x) && IsObject(o) && 1 <= k < |o|
    ensures Callback(x + o[..k], size, nmemb, parse) == Outcome("", RealSize(size, nmemb))
    ensures forall i | 0 <= i < |Frames(o[k..])| :: Frames(o[k..])[i] != o
  {
    SplitObjectIsLost(x, o, k);
  }

  /**
   * A chunk of complete events whose batch array holds one item without a
   * string `choices[0].text` appends nothing at all and reports 0, however
   * many other items carry text.
   */
  lemma BadItemLosesChunk(objs: seq<string>, fillers: seq<string>, items: seq<Json>, k: nat,
                          size: SizeT, nmemb: SizeT, parse: string -> Option<Json>)
    requires |fillers| == |objs| + 1 && objs != []
    requires forall i | 0 <= i < |objs| :: IsObject(objs[i])
    requires forall i | 0 <= i < |fillers| :: NoOpenBrace(fillers[i])
    requires forall i | 0 <= i < |objs| :: parse(objs[i]).Some? && !Contains(parse(objs[i]).value, "error")
    requires parse(BatchText(objs)) == Some(Arr(items))
    requires k < |items| && !IsIntZero(items[k]) && ChoiceText(items[k]).None?
    ensures Callback(Weave(objs, fillers), size, nmemb, parse) == Outcome("", 0)
  {
    FramesOfWeave(objs, fillers);
    TokenFramesAreBatched(objs, parse);
    OneBadItemLosesBatch(objs, parse, items, k);
  }

  /**
   * A Reset does not stop the stream: the callback never looks at the
   * in-progress flag, so a chunk that arrives after a Reset in the middle of
   * a request appends to the cleared completion while the flag stays lowered.
   * `midway` is the completion just before the Reset.
   */
  method ResetThenChunk(par: Params, envKey: string, c1: string, c2: string, size: SizeT, nmemb: SizeT,
                        parse: string -> Option<Json>)
    returns (dat: GptDAT, midway: string, r: SizeT)
    requires par.apiKey != ""
    ensures midway == Callback(c1, size, nmemb, parse).appended
    ensures !dat.isCompleting
    ensures dat.currentCompletion == Callback(c2, size, nmemb, parse).appended
    ensures r == Callback(c2, size, nmemb, parse).ret
  {
    dat := new GptDAT();
    var _, started := dat.Execute(true, 1, 0, par, envKey);
    assert started.Some?;
    var streaming := dat.RequestStart(true);
    var _ := dat.WriteCallback(c1, size, nmemb, parse);
    midway := dat.currentCompletion;
    assert dat.isCompleting;
    var _, _ := dat.Execute(true, 0, 1, par, envKey);
    r := dat.WriteCallback(c2, size, nmemb, parse);
  }
}
