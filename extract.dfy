/**
 * The response extractor `extract_text` (src/main.rs:131-172): a fixed
 * priority list of response shapes searched for generated text.
 */
module Extract {
  import opened Wrappers
  import opened JsonValue
  import opened Text

  /** The text of one content part: `c.get("text").and_then(|t| t.as_str())`. */
  function PartText(part: Json): Option<string> {
    GetStr(part, "text")
  }

  /** The first text among a message's `content` parts; nothing when it has no `content` array. */
  function MessageText(msg: Json): Option<string> {
    match GetArr(msg, "content")
    case Some(parts) => First(parts, PartText)
    case None => None
  }

  /** The first hit of `f` scanning `xs` in order, as a `for` loop with an early `return` finds it. */
  function First<T>(xs: seq<T>, f: T -> Option<string>): Option<string> {
    if |xs| == 0 then None
    else if f(xs[0]).Some? then f(xs[0])
    else First(xs[1..], f)
  }

  /** The string elements of an array, in order: `filter_map(|v| v.as_str())`. */
  function Strings(items: seq<Json>): (r: seq<string>)
    ensures |r| <= |items|
    ensures forall k :: 0 <= k < |r| ==> JStr(r[k]) in items
    ensures (forall k :: 0 <= k < |items| ==> !items[k].JStr?) ==> r == []
  {
    if |items| == 0 then []
    else if items[0].JStr? then [items[0].s] + Strings(items[1..])
    else Strings(items[1..])
  }

  /** A single string element is kept, any other single element is dropped. */
  lemma StringsOne(v: Json)
    ensures v.JStr? ==> Strings([v]) == [v.s]
    ensures !v.JStr? ==> Strings([v]) == []
  {
    assert [v][1..] == [];
  }

  /** Filtering distributes over concatenation, so every string element is kept, in order. */
  lemma {:induction false} StringsAppend(a: seq<Json>, b: seq<Json>)
    ensures Strings(a + b) == Strings(a) + Strings(b)
  {
    if |a| == 0 {
      assert a + b == b;
    } else {
      assert (a + b)[0] == a[0];
      assert (a + b)[1..] == a[1..] + b;
      StringsAppend(a[1..], b);
    }
  }

  /** Primary shape: `output` is an array of messages (133-143). */
  function FromOutputArray(doc: Json): Option<string> {
    match GetArr(doc, "output")
    case Some(msgs) => First(msgs, MessageText)
    case None => None
  }

  /** Second shape: `output` is a single message object (146-154). */
  function FromOutputObject(doc: Json): Option<string> {
    match Get(doc, "output")
    case Some(JObj(m)) => MessageText(JObj(m))
    case _ => None
  }

  /** Fallback: `output_text` as a string, or as an array of strings joined by newlines (157-169). */
  function FromOutputText(doc: Json): Option<string> {
    match Get(doc, "output_text")
    case Some(JStr(s)) => Some(s)
    case Some(JArr(items)) =>
      var joined := JoinWith(Strings(items), '\n');
      if joined != [] then Some(joined) else None
    case _ => None
  }

  /** `extract_text`: the first shape, in priority order, that yields text. */
  function ExtractText(doc: Json): Option<string> {
    if FromOutputArray(doc).Some? then FromOutputArray(doc)
    else if FromOutputObject(doc).Some? then FromOutputObject(doc)
    else FromOutputText(doc)
  }

  // ---------------------------------------------------------------------
  // The scan as the source writes it: nested loops with early returns.

  /** The inner `for c in contents` loop of lines 136-140 and 148-152. */
  method ScanParts(parts: seq<Json>) returns (r: Option<string>)
    ensures r == First(parts, PartText)
    ensures r.None? <==> forall k :: 0 <= k < |parts| ==> PartText(parts[k]).None?
  {
    var j := 0;
    while j < |parts|
      invariant 0 <= j <= |parts|
      invariant forall k :: 0 <= k < j ==> PartText(parts[k]).None?
    {
      var text := PartText(parts[j]);
      if text.Some? {
        FirstAt(parts, PartText, j);
        return text;
      }
      j := j + 1;
    }
    FirstNone(parts, PartText);
    return None;
  }

  /** `extract_text` with the loops of lines 133-154 and the fallbacks of 157-171. */
  method ExtractTextScan(doc: Json) returns (r: Option<string>)
    ensures r == ExtractText(doc)
  {
    var output := Get(doc, "output");
    if output.Some? && output.value.JArr? {
      var outputs := output.value.items;
      var i := 0;
      while i < |outputs|
        invariant 0 <= i <= |outputs|
        invariant forall k :: 0 <= k < i ==> MessageText(outputs[k]).None?
      {
        var contents := GetArr(outputs[i], "content");
        if contents.Some? {
          var text := ScanParts(contents.value);
          if text.Some? {
            FirstAt(outputs, MessageText, i);
            return text;
          }
        }
        i := i + 1;
      }
      FirstNone(outputs, MessageText);
    }
    if output.Some? && output.value.JObj? {
      var contents := GetArr(output.value, "content");
      if contents.Some? {
        var text := ScanParts(contents.value);
        if text.Some? {
          return text;
        }
      }
    }
    var text := GetStr(doc, "output_text");
    if text.Some? {
      return text;
    }
    var arr := GetArr(doc, "output_text");
    if arr.Some? {
      var joined := JoinWith(Strings(arr.value), '\n');
      if joined != [] {
        return Some(joined);
      }
    }
    return None;
  }

  // ---------------------------------------------------------------------
  // What the priority order promises.

  /** The scan returns the hit at the first index whose element yields one. */
  lemma {:induction false} FirstAt<T>(xs: seq<T>, f: T -> Option<string>, j: int)
    requires 0 <= j < |xs| && f(xs[j]).Some?
    requires forall k :: 0 <= k < j ==> f(xs[k]).None?
    ensures First(xs, f) == f(xs[j])
  {
    if j > 0 {
      assert xs[1..][j - 1] == xs[j];
      forall k | 0 <= k < j - 1 ensures f(xs[1..][k]).None? {
        assert xs[1..][k] == xs[k + 1];
      }
      FirstAt(xs[1..], f, j - 1);
    }
  }

  /** The scan finds nothing exactly when no element yields a hit. */
  lemma {:induction false} FirstNone<T>(xs: seq<T>, f: T -> Option<string>)
    ensures First(xs, f).None? <==> forall k :: 0 <= k < |xs| ==> f(xs[k]).None?
  {
    if |xs| > 0 {
      FirstNone(xs[1..], f);
      if f(xs[0]).None? {
        forall k | 0 <= k < |xs| && k > 0 ensures f(xs[k]) == f(xs[1..][k - 1]) {}
      }
    }
  }

  /** A hit of the scan is the hit of some element, and no earlier element yields one. */
  lemma {:induction false} FirstFound<T>(xs: seq<T>, f: T -> Option<string>)
    requires First(xs, f).Some?
    ensures exists j :: 0 <= j < |xs| && f(xs[j]) == First(xs, f)
                        && forall k :: 0 <= k < j ==> f(xs[k]).None?
  {
    if f(xs[0]).None? {
      FirstFound(xs[1..], f);
      var j :| 0 <= j < |xs[1..]| && f(xs[1..][j]) == First(xs[1..], f)
                && forall k :: 0 <= k < j ==> f(xs[1..][k]).None?;
      assert xs[1..][j] == xs[j + 1];
      forall k | 0 <= k < j + 1 ensures f(xs[k]).None? {
        if k > 0 { assert xs[k] == xs[1..][k - 1]; }
      }
    }
  }

  /**
   * The first string `text` found scanning `output[i].content[j]` in order is
   * the result, whatever `output_text` holds.
   */
  lemma OutputArrayHit(doc: Json, msgs: seq<Json>, i: int, parts: seq<Json>, j: int)
    requires Get(doc, "output") == Some(JArr(msgs))
    requires 0 <= i < |msgs| && GetArr(msgs[i], "content") == Some(parts)
    requires 0 <= j < |parts| && PartText(parts[j]).Some?
    requires forall k :: 0 <= k < i ==> MessageText(msgs[k]).None?
    requires forall k :: 0 <= k < j ==> PartText(parts[k]).None?
    ensures ExtractText(doc) == PartText(parts[j])
  {
    FirstAt(parts, PartText, j);
    FirstAt(msgs, MessageText, i);
  }

  /**
   * With a single message object under `output`, the first string `text` among its
   * `content` parts is the result, whatever `output_text` holds.
   */
  lemma OutputObjectHit(doc: Json, m: map<string, Json>, parts: seq<Json>, j: int)
    requires Get(doc, "output") == Some(JObj(m))
    requires GetArr(JObj(m), "content") == Some(parts)
    requires 0 <= j < |parts| && PartText(parts[j]).Some?
    requires forall k :: 0 <= k < j ==> PartText(parts[k]).None?
    ensures ExtractText(doc) == PartText(parts[j])
  {
    FirstAt(parts, PartText, j);
  }

  /** When the `output` array yields text, replacing `output_text` by anything changes nothing. */
  lemma OutputArrayBeatsOutputText(doc: Json, v: Json)
    requires doc.JObj? && FromOutputArray(doc).Some?
    ensures ExtractText(JObj(doc.fields["output_text" := v])) == ExtractText(doc)
  {
    var doc' := JObj(doc.fields["output_text" := v]);
    assert Get(doc', "output") == Get(doc, "output");
  }

  /**
   * An `output` array without any string `text` falls through to `output_text`;
   * the single-object shape cannot apply to an array.
   */
  lemma OutputArrayFallsThrough(doc: Json, msgs: seq<Json>)
    requires Get(doc, "output") == Some(JArr(msgs))
    requires forall k :: 0 <= k < |msgs| ==> MessageText(msgs[k]).None?
    ensures FromOutputArray(doc).None? && FromOutputObject(doc).None?
    ensures ExtractText(doc) == FromOutputText(doc)
  {
    FirstNone(msgs, MessageText);
  }

  /** A string `output_text` is returned verbatim, the empty string included. */
  lemma OutputTextString(doc: Json, s: string)
    requires FromOutputArray(doc).None? && FromOutputObject(doc).None?
    requires Get(doc, "output_text") == Some(JStr(s))
    ensures ExtractText(doc) == Some(s)
  {
  }

  /**
   * An array `output_text` keeps its string elements, joins them with `'\n'`,
   * and yields nothing exactly when there is no string or only one empty one.
   */
  lemma OutputTextArray(doc: Json, items: seq<Json>)
    requires FromOutputArray(doc).None? && FromOutputObject(doc).None?
    requires Get(doc, "output_text") == Some(JArr(items))
    ensures ExtractText(doc).None? <==> Strings(items) == [] || Strings(items) == [[]]
    ensures ExtractText(doc).Some? ==> ExtractText(doc) == Some(JoinWith(Strings(items), '\n'))
  {
    JoinWithEmptyIff(Strings(items), '\n');
  }

  /** A document that is not an object, or has neither `output` nor `output_text`, yields nothing. */
  lemma NoKnownShape(doc: Json)
    requires !doc.JObj? || ("output" !in doc.fields && "output_text" !in doc.fields)
    ensures ExtractText(doc).None?
  {
  }

  /** `message` carries a `content` array with a string `text` in one of its parts. */
  predicate MessageHasText(msg: Json) {
    match GetArr(msg, "content")
    case Some(parts) => exists j :: 0 <= j < |parts| && PartText(parts[j]).Some?
    case None => false
  }

  lemma MessageTextIff(msg: Json)
    ensures MessageText(msg).Some? <==> MessageHasText(msg)
  {
    match GetArr(msg, "content")
    case Some(parts) => FirstNone(parts, PartText);
    case None =>
  }

  /**
   * Extraction fails exactly when none of the four shapes is present: no message of
   * an `output` array and no `output` object has a string `text` part, `output_text`
   * is not a string, and an `output_text` array joins to the empty string.
   */
  lemma ExtractNoneIff(doc: Json)
    ensures ExtractText(doc).None? <==>
      && (forall msgs :: GetArr(doc, "output") == Some(msgs) ==>
            forall i :: 0 <= i < |msgs| ==> !MessageHasText(msgs[i]))
      && (forall m :: Get(doc, "output") == Some(JObj(m)) ==> !MessageHasText(JObj(m)))
      && GetStr(doc, "output_text").None?
      && (forall items :: GetArr(doc, "output_text") == Some(items) ==>
            JoinWith(Strings(items), '\n') == [])
  {
    match GetArr(doc, "output")
    case Some(msgs) =>
      FirstNone(msgs, MessageText);
      forall i | 0 <= i < |msgs| ensures MessageText(msgs[i]).None? <==> !MessageHasText(msgs[i]) {
        MessageTextIff(msgs[i]);
      }
    case None =>
      match Get(doc, "output")
      case Some(JObj(m)) => MessageTextIff(JObj(m));
      case _ =>
  }

  /** A document holding only `output_text` is read by the fallback alone. */
  lemma OnlyOutputText(v: Json)
    ensures ExtractText(JObj(map["output_text" := v])) == FromOutputText(JObj(map["output_text" := v]))
  {
    assert Get(JObj(map["output_text" := v]), "output").None?;
  }

  // Worked examples of the extractor.

  lemma ExtractExampleEmpty()
    ensures ExtractText(JObj(map[])) == None
  {
    NoKnownShape(JObj(map[]));
  }

  lemma ExtractExampleJoined()
    ensures ExtractText(JObj(map["output_text" := JArr([JStr("a"), JStr("b")])])) == Some("a\nb")
  {
    OnlyOutputText(JArr([JStr("a"), JStr("b")]));
    assert Strings([JStr("a"), JStr("b")]) == ["a", "b"];
    assert JoinWith(["a", "b"], '\n') == "a\nb";
  }

  lemma ExtractExampleOneEmpty()
    ensures ExtractText(JObj(map["output_text" := JArr([JStr("")])])) == None
  {
    OnlyOutputText(JArr([JStr("")]));
    assert Strings([JStr("")]) == [""];
  }

  lemma ExtractExampleTwoEmpty()
    ensures ExtractText(JObj(map["output_text" := JArr([JStr(""), JStr("")])])) == Some("\n")
  {
    OnlyOutputText(JArr([JStr(""), JStr("")]));
    assert Strings([JStr(""), JStr("")]) == ["", ""];
    assert JoinWith(["", ""], '\n') == "\n";
  }

  lemma ExtractExampleEmptyString()
    ensures ExtractText(JObj(map["output_text" := JStr("")])) == Some("")
  {
    OnlyOutputText(JStr(""));
  }

  lemma ExtractExampleOutputFirst()
    ensures ExtractText(JObj(map[
              "output" := JArr([JObj(map["content" := JArr([JObj(map["text" := JStr("ls -la\n")])])])]),
              "output_text" := JStr("other")])) == Some("ls -la\n")
  {
    var part := JObj(map["text" := JStr("ls -la\n")]);
    var msg := JObj(map["content" := JArr([part])]);
    var doc := JObj(map["output" := JArr([msg]), "output_text" := JStr("other")]);
    assert Get(doc, "output") == Some(JArr([msg]));
    OutputArrayHit(doc, [msg], 0, [part], 0);
  }
}
