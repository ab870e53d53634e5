/**
 What the server executes for a bulk body and where the proxy files its lines, said without their line
 machines: the requests a client writes down as metadata and data lines are exactly the operations that
 are carried out.
 */
module BulkServer {
  import opened Wrappers
  import opened Bulk

  lemma ActionsInTurn(target: string, w: Worker, keys: seq<Action>, a: Action)
    ensures WorkerActions(target, w, keys + [a]) == WorkerAction(target, WorkerActions(target, w, keys), a)
    decreases |keys|
  {
    if keys == [] {
      assert keys + [a] == [a];
    } else {
      ActionsInTurn(target, WorkerAction(target, w, keys[0]), keys[1..], a);
      assert (keys + [a])[1..] == keys[1..] + [a];
    }
  }

  /** The keys of a metadata line are dealt with one after another. */
  lemma LastKey(target: string, lines: seq<Line>, meta: string, keys: seq<Action>, a: Action)
    requires Parse(target, lines).Running? && Parse(target, lines).mode.Metadata?
    ensures Parse(target, lines + [Json(meta, keys + [a])]) ==
            WorkerAction(target, Parse(target, lines + [Json(meta, keys)]), a)
  {
    ParseMore(target, lines, Json(meta, keys + [a]));
    ParseMore(target, lines, Json(meta, keys));
    ActionsInTurn(target, Parse(target, lines), keys, a);
  }

  /**
   A metadata line whose last key announces a document, and the line behind it. Whatever came before, the
   document goes to the index it names, or to the one in the path, under the id it gives, or a new one; it
   is an error to name no index as the empty string, and a panic to leave it out, if the path has none.
   */
  lemma PutIsExecuted(target: string, lines: seq<Line>, meta: string, keys: seq<Action>, verb: Verb,
                      index: Option<string>, id: Option<string>, text: string, more: seq<Action>)
    requires Parse(target, lines).Running? && Parse(target, lines).mode.Metadata?
    requires Parse(target, lines + [Json(meta, keys)]).Running? && (verb.Index? || verb.Create? || verb.Update?)
    ensures var ops := Parse(target, lines + [Json(meta, keys)]).output;
            var named := if index.None? || index.value == "" then target else index.value;
            var given := if id.None? || id.value == "" then None else id;
            Parse(target, lines + [Json(meta, keys + [Action(verb, index, id)]), Json(text, more)]) ==
            if named != "" then Running(Metadata, ops + [Put(named, verb, given, text)])
            else if index.Some? then Error else Panic
  {
    LastKey(target, lines, meta, keys, Action(verb, index, id));
    var announced := lines + [Json(meta, keys + [Action(verb, index, id)])];
    ParseMore(target, announced, Json(text, more));
    assert lines + [Json(meta, keys + [Action(verb, index, id)]), Json(text, more)] == announced + [Json(text, more)];
  }

  /** A metadata line whose last key deletes a document; without an id or an index it is a panic. */
  lemma DeleteIsExecuted(target: string, lines: seq<Line>, meta: string, keys: seq<Action>, index: Option<string>,
                         id: Option<string>)
    requires Parse(target, lines).Running? && Parse(target, lines).mode.Metadata?
    requires Parse(target, lines + [Json(meta, keys)]).Running?
    ensures var ops := Parse(target, lines + [Json(meta, keys)]).output;
            Parse(target, lines + [Json(meta, keys + [Action(Delete, index, id)])]) ==
            if id.None? || index.None? then Panic
            else if index.value == "" && target == "" then Error
            else Running(Metadata, ops + [Remove(if index.value == "" then target else index.value, id.value)])
  {
    LastKey(target, lines, meta, keys, Action(Delete, index, id));
  }

  /**
   A key of another name announces and deletes nothing; behind a key that announces a document it sends that
   document, under a new id, to the index in the path. A key that holds no object is an error.
   */
  lemma OtherKeys(target: string, lines: seq<Line>, meta: string, keys: seq<Action>, index: Option<string>,
                  id: Option<string>, text: string, more: seq<Action>)
    requires Parse(target, lines).Running? && Parse(target, lines).mode.Metadata?
    requires Parse(target, lines + [Json(meta, keys)]).Running?
    ensures Parse(target, lines + [Json(meta, keys + [NotAnObject])]) == Error
    ensures var before := Parse(target, lines + [Json(meta, keys)]);
            var line := Json(meta, keys + [Action(Unknown, index, id)]);
            if before.mode.Metadata? then Parse(target, lines + [line]) == before
            else Parse(target, lines + [line, Json(text, more)]) ==
                 Running(Metadata, before.output + [Put(target, Index, None, text)])
  {
    LastKey(target, lines, meta, keys, NotAnObject);
    LastKey(target, lines, meta, keys, Action(Unknown, index, id));
    var redirected := lines + [Json(meta, keys + [Action(Unknown, index, id)])];
    ParseMore(target, redirected, Json(text, more));
    assert lines + [Json(meta, keys + [Action(Unknown, index, id)]), Json(text, more)] ==
           redirected + [Json(text, more)];
  }

  /** Lines that are no JSON, and objects without keys where metadata is expected, do nothing. */
  lemma SkippedLines(target: string, lines: seq<Line>, text: string)
    ensures Parse(target, lines + [Garbled(text)]) == Parse(target, lines)
    ensures Parse(target, lines).Running? && Parse(target, lines).mode.Metadata? ==>
              Parse(target, lines + [Json(text, [])]) == Parse(target, lines)
  {
    ParseMore(target, lines, Garbled(text));
    ParseMore(target, lines, Json(text, []));
  }

  // ---------------------------------------------------------- requests and their lines

  /** What a client asks for, and how it writes that down; the keys of a document mean nothing to the server. */
  datatype Request =
    | PutDoc(meta: string, verb: Verb, index: string, id: Option<string>, text: string, keys: seq<Action>)
    | DeleteDoc(meta: string, index: string, docId: string)
    | Noise(text: string)

  predicate WellFormed(target: string, r: Request) {
    match r
    case PutDoc(_, verb, index, _, _, _) =>
      (verb.Index? || verb.Create? || verb.Update?) && (index != "" || target != "")
    case DeleteDoc(_, index, _) => index != "" || target != ""
    case Noise(_) => true
  }

  function LinesOf(r: Request): seq<Line> {
    match r
    case PutDoc(meta, verb, index, id, text, keys) => [Json(meta, [Action(verb, Some(index), id)]), Json(text, keys)]
    case DeleteDoc(meta, index, id) => [Json(meta, [Action(Delete, Some(index), Some(id))])]
    case Noise(text) => [Garbled(text)]
  }

  function Render(requests: seq<Request>): seq<Line> {
    if requests == [] then [] else Render(requests[..|requests| - 1]) + LinesOf(requests[|requests| - 1])
  }

  /** The operations that were asked for, in order. */
  function Asked(target: string, requests: seq<Request>): seq<Op> {
    if requests == [] then []
    else
      var before := Asked(target, requests[..|requests| - 1]);
      match requests[|requests| - 1]
      case PutDoc(_, verb, index, id, text, _) =>
        before + [Put(if index == "" then target else index, verb, if id == Some("") then None else id, text)]
      case DeleteDoc(_, index, id) => before + [Remove(if index == "" then target else index, id)]
      case Noise(_) => before
  }

  lemma OneMoreRequest(target: string, lines: seq<Line>, ops: seq<Op>, r: Request)
    requires Parse(target, lines) == Running(Metadata, ops) && WellFormed(target, r)
    ensures Parse(target, lines + LinesOf(r)) ==
            match r
            case PutDoc(_, verb, index, id, text, _) =>
              Running(Metadata, ops + [Put(if index == "" then target else index, verb,
                                           if id == Some("") then None else id, text)])
            case DeleteDoc(_, index, id) => Running(Metadata, ops + [Remove(if index == "" then target else index, id)])
            case Noise(_) => Running(Metadata, ops)
  {
    match r
    case PutDoc(meta, verb, index, id, text, keys) =>
      SkippedLines(target, lines, meta);
      PutIsExecuted(target, lines, meta, [], verb, Some(index), id, text, keys);
      assert [] + [Action(verb, Some(index), id)] == [Action(verb, Some(index), id)];
    case DeleteDoc(meta, index, id) =>
      SkippedLines(target, lines, meta);
      DeleteIsExecuted(target, lines, meta, [], Some(index), Some(id));
      assert [] + [Action(Delete, Some(index), Some(id))] == [Action(Delete, Some(index), Some(id))];
    case Noise(text) => SkippedLines(target, lines, text);
  }

  /** Reading a body written down from requests gives back what was asked for. */
  lemma {:induction false} RequestsAreExecuted(target: string, requests: seq<Request>)
    requires forall i :: 0 <= i < |requests| ==> WellFormed(target, requests[i])
    ensures Parse(target, Render(requests)) == Running(Metadata, Asked(target, requests))
  {
    if requests != [] {
      var before, r := requests[..|requests| - 1], requests[|requests| - 1];
      RequestsAreExecuted(target, before);
      OneMoreRequest(target, Render(before), Asked(target, before), r);
    }
  }

  // ------------------------------------------------------------------------ the proxy

  lemma FiledInTurn(target: string, p: Proxy, line: Line, keys: seq<Action>, a: Action)
    ensures ProxyActions(target, p, line, keys + [a]) ==
            ProxyAction(target, ProxyActions(target, p, line, keys), line, a)
    decreases |keys|
  {
    if keys == [] {
      assert keys + [a] == [a];
    } else {
      FiledInTurn(target, ProxyAction(target, p, line, keys[0]), line, keys[1..], a);
      assert (keys + [a])[1..] == keys[1..] + [a];
    }
  }

  /** The two lines of an announced document are filed one behind the other, and everything else stays put. */
  ghost predicate FiledUnder(files: Files, files': Files, index: string, lines: seq<Line>) {
    && FileOf(files', index) == FileOf(files, index) + lines
    && forall i :: i != index ==> (i in files' <==> i in files) && FileOf(files', i) == FileOf(files, i)
  }

  /**
   A metadata line with one key, where the proxy expects metadata: an announced document is filed with its line
   under the index it names, or the one in the path; a delete is filed alone. It is an error to name no index as
   the empty string if the path has none either, and a panic to leave it out.
   */
  lemma RequestIsFiled(target: string, lines: seq<Line>, meta: string, verb: Verb, index: Option<string>,
                       id: Option<string>, text: string, more: seq<Action>)
    requires Split(target, lines).Running? && Split(target, lines).mode.NoData? && !verb.Unknown?
    ensures var files := Split(target, lines).output;
            var line, data := Json(meta, [Action(verb, index, id)]), Json(text, more);
            var all := if verb.Delete? then [line] else [line, data];
            var after := Split(target, lines + all);
            if index.None? then Split(target, lines + [line]).Panic?
            else
              var named := if index.value == "" then target else index.value;
              if named == "" then Split(target, lines + [line]).Error?
              else after.Running? && after.mode.NoData? && FiledUnder(files, after.output, named, all)
  {
    var line, data := Json(meta, [Action(verb, index, id)]), Json(text, more);
    OneKeyFiled(target, lines, meta, Action(verb, index, id));
    if !verb.Delete? {
      SplitMore(target, lines + [line], data);
      assert lines + [line] + [data] == lines + [line, data];
      if index.Some? {
        var named := if index.value == "" then target else index.value;
        if named != "" { FiledTwice(Split(target, lines).output, named, line, data); }
      }
    }
  }

  lemma OneKeyFiled(target: string, lines: seq<Line>, meta: string, a: Action)
    requires Split(target, lines).Running? && Split(target, lines).mode.NoData?
    ensures Split(target, lines + [Json(meta, [a])]) == ProxyAction(target, Split(target, lines), Json(meta, [a]), a)
  {
    SplitMore(target, lines, Json(meta, [a]));
    FiledInTurn(target, Split(target, lines), Json(meta, [a]), [], a);
    assert [] + [a] == [a];
  }

  lemma FiledTwice(files: Files, index: string, a: Line, b: Line)
    ensures FiledUnder(files, Filed(Filed(files, index, a), index, b), index, [a, b])
  {
    assert FileOf(files, index) + [a] + [b] == FileOf(files, index) + [a, b];
  }

  /** Lines that are no JSON are not filed. */
  lemma GarbledIsNotFiled(target: string, lines: seq<Line>, text: string)
    ensures Split(target, lines + [Garbled(text)]) == Split(target, lines)
  {
    SplitMore(target, lines, Garbled(text));
  }

  /** A key that holds no object is an error, and an unknown key is not filed. */
  lemma NotFiled(target: string, lines: seq<Line>, meta: string, index: Option<string>, id: Option<string>)
    requires Split(target, lines).Running? && Split(target, lines).mode.NoData?
    ensures Split(target, lines + [Json(meta, [NotAnObject])]).Error?
    ensures Split(target, lines + [Json(meta, [Action(Unknown, index, id)])]) == Split(target, lines)
  {
    OneKeyFiled(target, lines, meta, NotAnObject);
    OneKeyFiled(target, lines, meta, Action(Unknown, index, id));
  }
}
