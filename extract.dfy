/** `_to_json`: best-effort recovery of a JSON value from a model reply. The JSON
    decoder itself (`json.loads`) is a parameter `parse`, a partial function that
    gives `None` where the decoder raises. */
module Extract {
  import opened Wrappers
  import opened Json

  /** Index of the first `c` in `s`, or `|s|` when there is none. */
  function FirstIndex(s: string, c: char): (k: nat)
    ensures k <= |s|
    ensures forall i :: 0 <= i < k ==> s[i] != c
    ensures k < |s| ==> s[k] == c
  {
    if s == [] || s[0] == c then 0 else 1 + FirstIndex(s[1..], c)
  }

  /** Index of the last `c` in `s`, or -1 when there is none. */
  function LastIndex(s: string, c: char): (k: int)
    ensures -1 <= k < |s|
    ensures forall i :: k < i < |s| ==> s[i] != c
    ensures 0 <= k ==> s[k] == c
  {
    if s == [] then -1
    else if s[|s| - 1] == c then |s| - 1
    else LastIndex(s[..|s| - 1], c)
  }

  /** The match of `re.search(r"\{[\s\S]*\}", raw)`: from the first `{` to the
      last `}` after it, or `None` when no `}` follows a `{`. */
  function BraceSpan(raw: string): (r: Option<string>)
    ensures r.None? <==>
              !exists i, j :: 0 <= i < j < |raw| && raw[i] == '{' && raw[j] == '}'
    ensures r.Some? ==>
              exists i, j :: 0 <= i < j < |raw| && raw[i] == '{' && raw[j] == '}'
                && r.value == raw[i..j + 1] && '{' !in raw[..i] && '}' !in raw[j + 1..]
  {
    var p := FirstIndex(raw, '{');
    var q := LastIndex(raw, '}');
    if p < q then
      assert forall i :: 0 <= i < p ==> raw[..p][i] == raw[i];
      assert forall i :: q + 1 <= i < |raw| ==> raw[q + 1..][i - (q + 1)] == raw[i];
      Some(raw[p..q + 1])
    else
      None
  }

  /** `raw.replace("'", '"')`. */
  function ReplaceQuotes(s: string): (r: string)
    ensures |r| == |s| && '\'' !in r
    ensures forall i :: 0 <= i < |s| && s[i] != '\'' ==> r[i] == s[i]
    ensures forall i :: 0 <= i < |s| && s[i] == '\'' ==> r[i] == '"'
  {
    seq(|s|, i requires 0 <= i < |s| => if s[i] == '\'' then '"' else s[i])
  }

  /** The texts `_to_json` hands to the decoder, in the order it tries them. */
  function Attempts(raw: string): (r: seq<string>)
    ensures 2 <= |r| <= 3 && r[0] == raw && r[|r| - 1] == ReplaceQuotes(raw)
    ensures |r| == 3 <==> BraceSpan(raw).Some?
    ensures |r| == 3 ==> r[1] == BraceSpan(raw).value
  {
    [raw] + (match BraceSpan(raw) case Some(span) => [span] case None => []) + [ReplaceQuotes(raw)]
  }

  /** The value of the first text in `texts` that decodes, or the empty dict. */
  function FirstDecoded(parse: string -> Option<Value>, texts: seq<string>): (r: Value)
    ensures (forall i :: 0 <= i < |texts| ==> parse(texts[i]).None?) ==> r == Obj([])
    ensures forall i :: (0 <= i < |texts| && parse(texts[i]).Some? &&
                         (forall j :: 0 <= j < i ==> parse(texts[j]).None?)) ==> r == parse(texts[i]).value
  {
    if texts == [] then Obj([])
    else if parse(texts[0]).Some? then parse(texts[0]).value
    else
      assert forall i :: 1 <= i < |texts| ==> texts[i] == texts[1..][i - 1];
      FirstDecoded(parse, texts[1..])
  }

  /** `_to_json(raw)`: never raises; the result is what one of the attempts decoded
      to, or `{}` when none decodes. */
  function ToJson(parse: string -> Option<Value>, raw: string): (r: Value)
    ensures r == Obj([]) || exists t :: t in Attempts(raw) && parse(t) == Some(r)
    ensures (forall t :: t in Attempts(raw) ==> parse(t).None?) ==> r == Obj([])
  {
    if parse(raw).Some? then
      parse(raw).value
    else if BraceSpan(raw).Some? && parse(BraceSpan(raw).value).Some? then
      parse(BraceSpan(raw).value).value
    else if parse(ReplaceQuotes(raw)).Some? then
      parse(ReplaceQuotes(raw)).value
    else
      Obj([])
  }

  /** The attempts are taken in order and the first that decodes wins. */
  lemma ToJsonFirstDecoded(parse: string -> Option<Value>, raw: string)
    ensures ToJson(parse, raw) == FirstDecoded(parse, Attempts(raw))
  {
    var a := Attempts(raw);
    var last := [ReplaceQuotes(raw)];
    assert last[1..] == [];
    assert FirstDecoded(parse, last) ==
      if parse(ReplaceQuotes(raw)).Some? then parse(ReplaceQuotes(raw)).value else Obj([]);
    if BraceSpan(raw).Some? {
      var span := BraceSpan(raw).value;
      assert a == [raw, span] + last;
      assert a[1..] == [span] + last && a[1..][1..] == last;
    } else {
      assert a == [raw] + last && a[1..] == last;
    }
  }

  /** A reply that wraps one object in prose with no braces around it: the greedy
      span is exactly that object. */
  lemma BraceSpanOfEmbedded(pre: string, obj: string, post: string)
    requires '{' !in pre && '}' !in post
    requires |obj| >= 2 && obj[0] == '{' && obj[|obj| - 1] == '}'
    ensures BraceSpan(pre + obj + post) == Some(obj)
  {
    var raw := pre + obj + post;
    var p := FirstIndex(raw, '{');
    var q := LastIndex(raw, '}');
    assert raw[|pre|] == '{' && raw[|pre| + |obj| - 1] == '}';
    assert forall i :: 0 <= i < |pre| ==> raw[i] == pre[i];
    assert forall i :: |pre| + |obj| <= i < |raw| ==> raw[i] == post[i - |pre| - |obj|];
    assert p == |pre|;
    assert q == |pre| + |obj| - 1;
    assert raw[p..q + 1] == obj;
  }

  /** Prose before and after a JSON object does not stop its recovery: when the
      whole reply fails to decode, the embedded object is what `_to_json` gives. */
  lemma ToJsonEmbedded(parse: string -> Option<Value>, pre: string, obj: string, post: string, v: Value)
    requires '{' !in pre && '}' !in post
    requires |obj| >= 2 && obj[0] == '{' && obj[|obj| - 1] == '}'
    requires parse(pre + obj + post).None? && parse(obj) == Some(v)
    ensures ToJson(parse, pre + obj + post) == v
  {
    BraceSpanOfEmbedded(pre, obj, post);
  }

  /** A Python-style dict literal (single quotes, no usable brace span) is read
      after the quote replacement. */
  lemma ToJsonSingleQuoted(parse: string -> Option<Value>, raw: string, v: Value)
    requires parse(raw).None?
    requires BraceSpan(raw).None? || parse(BraceSpan(raw).value).None?
    requires parse(ReplaceQuotes(raw)) == Some(v)
    ensures ToJson(parse, raw) == v
  {
  }
}
