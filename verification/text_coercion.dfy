/**
 * Flattening the content of a chat model's reply into one string.  Content
 * is a string, a list of parts, or some other value; a part is a string, a
 * dict (of which only the `"text"` entry matters here) or some other object
 * (of which only a `.text` attribute matters).  `str()` of a value that is
 * not a string is a parameter, `show`.
 */
module TextCoercion {
  import opened Wrappers

  /** The Python values that can reach `_to_text`. */
  datatype Value =
    | Str(s: string)
    | List(items: seq<Value>)
    | Dict(text: Option<Value>)     // a dict, with its "text" entry if it has one
    | Other(text: Option<Value>)    // any other object (None, a number, a wrapper), with its `.text` attribute if it has one

  /** `"\n".join` raises TypeError on an item that is not a string. */
  datatype Error = TypeError

  /**
   * What a part of a list contributes: a string part is kept; a dict gives
   * its `"text"` entry, or "" without one; any other part its `.text`
   * attribute, or its `str()` without one.  A piece that is not a string can
   * only be such a text, and is one exactly when that text is not a string.
   */
  function Piece(show: Value -> string, part: Value): (r: Value)
    ensures part.Str? ==> r == part
    ensures (part.Dict? || part.Other?) && part.text.Some? ==> r == part.text.value
    ensures part.Dict? && part.text.None? ==> r == Str("")
    ensures part.List? || (part.Other? && part.text.None?) ==> r == Str(show(part))
    ensures !r.Str? ==> (part.Dict? || part.Other?) && part.text == Some(r)
    ensures r.Str? <==> !(part.Dict? || part.Other?) || part.text.None? || part.text.value.Str?
  {
    match part
    case Str(_) => part
    case Dict(text) => if text.Some? then text.value else Str("")
    case List(_) => Str(show(part))
    case Other(text) => if text.Some? then text.value else Str(show(part))
  }

  /** The pieces of a list, one per part, in order. */
  function Pieces(show: Value -> string, parts: seq<Value>): (r: seq<Value>)
    ensures |r| == |parts|
    ensures forall i :: 0 <= i < |parts| ==> r[i] == Piece(show, parts[i])
  {
    seq(|parts|, i requires 0 <= i < |parts| => Piece(show, parts[i]))
  }

  /** `"\n".join(strs)` on strings. */
  function Join(strs: seq<string>): string {
    if strs == [] then ""
    else if |strs| == 1 then strs[0]
    else strs[0] + "\n" + Join(strs[1..])
  }

  /** `"\n".join(pieces)`: every piece must be a string. */
  function JoinPieces(pieces: seq<Value>): (r: Result<string, Error>)
    ensures r.Ok? <==> forall i :: 0 <= i < |pieces| ==> pieces[i].Str?
  {
    if forall i :: 0 <= i < |pieces| ==> pieces[i].Str? then
      Ok(Join(seq(|pieces|, i requires 0 <= i < |pieces| => pieces[i].s)))
    else Err(TypeError)
  }

  /** What `_to_text` returns for `content`. */
  function Text(show: Value -> string, content: Value): (r: Result<string, Error>)
    ensures content.Str? ==> r == Ok(content.s)
    ensures !content.Str? && !content.List? ==> r == Ok(show(content))
    ensures content.List? && content.items == [] ==> r == Ok("")
  {
    match content
    case Str(s) => Ok(s)
    case List(items) => JoinPieces(Pieces(show, items))
    case _ => Ok(show(content))
  }

  /** `_to_text`: collect the pieces in a loop, then join them. */
  method ToText(show: Value -> string, content: Value) returns (r: Result<string, Error>)
    ensures r == Text(show, content)
  {
    if content.Str? {
      return Ok(content.s);
    }
    if content.List? {
      var items := content.items;
      var pieces: seq<Value> := [];
      for i := 0 to |items|
        invariant pieces == Pieces(show, items[..i])
      {
        var part := items[i];
        if part.Str? {
          pieces := pieces + [part];
        } else if part.Dict? {
          pieces := pieces + [if part.text.Some? then part.text.value else Str("")];
        } else {
          pieces := pieces + [if part.Other? && part.text.Some? then part.text.value else Str(show(part))];
        }
      }
      assert items[..|items|] == items;
      return JoinPieces(pieces);
    }
    return Ok(show(content));
  }

  // ---------- the joined text splits back into its pieces ----------

  /** `s.split("\n")`, written independently of `Join`. */
  function Split(s: string): (r: seq<string>)
    ensures |r| >= 1
  {
    if s == [] then [""]
    else
      var rest := Split(s[1..]);
      if s[0] == '\n' then [""] + rest
      else [[s[0]] + rest[0]] + rest[1..]
  }

  lemma {:induction false} SplitLine(p: string, rest: string)
    requires '\n' !in p
    ensures Split(p + "\n" + rest) == [p] + Split(rest)
  {
    if p == [] {
      assert p + "\n" + rest == ['\n'] + rest;
      assert (['\n'] + rest)[1..] == rest;
    } else {
      assert (p + "\n" + rest)[1..] == p[1..] + "\n" + rest;
      SplitLine(p[1..], rest);
      assert [p[0]] + p[1..] == p;
    }
  }

  lemma {:induction false} SplitNone(p: string)
    requires '\n' !in p
    ensures Split(p) == [p]
  {
    if p != [] {
      SplitNone(p[1..]);
      assert [p[0]] + p[1..] == p;
    }
  }

  /** Joining at least one newline-free string and splitting again gives the strings back. */
  lemma {:induction false} SplitJoin(strs: seq<string>)
    requires strs != []
    requires forall i :: 0 <= i < |strs| ==> '\n' !in strs[i]
    ensures Split(Join(strs)) == strs
  {
    if |strs| == 1 {
      SplitNone(strs[0]);
    } else {
      SplitLine(strs[0], Join(strs[1..]));
      SplitJoin(strs[1..]);
    }
  }

  /**
   * The text of a list of parts: it exists exactly when every piece is a
   * string, and then it splits back into those pieces, one per part, when
   * the list is not empty and no piece holds a newline.
   */
  lemma ListText(show: Value -> string, items: seq<Value>)
    ensures Text(show, List(items)).Ok? <==> forall i :: 0 <= i < |items| ==> Piece(show, items[i]).Str?
    ensures Text(show, List(items)).Ok? && items != [] &&
            (forall i :: 0 <= i < |items| ==> '\n' !in Piece(show, items[i]).s) ==>
      var lines := Split(Text(show, List(items)).value);
      |lines| == |items| && forall i :: 0 <= i < |items| ==> lines[i] == Piece(show, items[i]).s
  {
    var pieces := Pieces(show, items);
    if Text(show, List(items)).Ok? && items != [] && (forall i :: 0 <= i < |items| ==> '\n' !in Piece(show, items[i]).s) {
      SplitJoin(seq(|pieces|, i requires 0 <= i < |pieces| => pieces[i].s));
    }
  }

  // ---------- coerce_ai_to_text ----------

  /** The parts of an AI message that the rewrap keeps. */
  datatype AIMessage<K, M> = AIMessage(content: Value, additionalKwargs: K, responseMetadata: Option<M>)

  /** A new message with string content and the original metadata. */
  function CoerceAiToText<K, M>(show: Value -> string, ai: AIMessage<K, M>): (r: Result<AIMessage<K, M>, Error>)
    ensures r.Ok? <==> Text(show, ai.content).Ok?
    ensures r.Ok? ==> r.value.content.Str? && r.value.content.s == Text(show, ai.content).value
    ensures r.Ok? ==> r.value.additionalKwargs == ai.additionalKwargs && r.value.responseMetadata == ai.responseMetadata
  {
    var text :- Text(show, ai.content);
    Ok(AIMessage(Str(text), ai.additionalKwargs, ai.responseMetadata))
  }

  /** Coercing an already coerced message changes nothing. */
  lemma CoerceIdempotent<K, M>(show: Value -> string, ai: AIMessage<K, M>)
    requires CoerceAiToText(show, ai).Ok?
    ensures CoerceAiToText(show, CoerceAiToText(show, ai).value) == CoerceAiToText(show, ai)
  {
  }
}
