/**
 The two loops over the lines of a bulk body as the server and the proxy run them: a flag, the metadata
 of the last announcement and what has been collected are changed in place, and the machines in Bulk say
 what that amounts to.
 */
module BulkLoops {
  import opened Wrappers
  import opened Sequences
  import opened Bulk

  /** A value of the map that holds the last metadata; nil stands for JSON's null and for a missing key. */
  datatype Value = Nil | Text(s: string) | Operation(verb: Verb)

  type MetaData = map<string, Value>

  function Get(m: MetaData, key: string): Value {
    if key in m then m[key] else Nil
  }

  function ToValue(s: Option<string>): Value {
    if s.Some? then Text(s.value) else Nil
  }

  function ToOption(v: Value): Option<string> {
    if v.Text? then Some(v.s) else None
  }

  /** The mode that the flag and the last metadata stand for. */
  function ModeOfVars(nextLineIsData: bool, last: MetaData): Mode {
    if !nextLineIsData then Metadata
    else Data(ToOption(Get(last, "_index")),
              if Get(last, "operation").Operation? then last["operation"].verb else Create,
              ToOption(Get(last, "_id")))
  }

  /** While data is awaited, the metadata holds an operation, and nothing but text or nil besides. */
  predicate WellSet(nextLineIsData: bool, last: MetaData) {
    nextLineIsData ==>
      Get(last, "operation").Operation? && !Get(last, "_index").Operation? && !Get(last, "_id").Operation?
  }

  // ------------------------------------------------------------------ the server

  /** The data line of the last announcement. */
  method TakeData(target: string, last: MetaData, text: string) returns (op: Option<Op>)
    requires WellSet(true, last)
    ensures forall ops :: WorkerLine(target, Running(ModeOfVars(true, last), ops), Json(text, [])) ==
                          if op.Some? then Running(Metadata, ops + [op.value]) else Panic
  {
    var docID := "";
    if "_id" in last && last["_id"].Text? {
      docID := last["_id"].s;
    }
    var id := if docID == "" then None else Some(docID);
    var supplied := Get(last, "_index");
    if supplied.Nil? && |target| > 0 {
      supplied := Text(target);
    }
    if !supplied.Text? {
      return None;
    }
    return Some(Put(supplied.s, last["operation"].verb, id, text));
  }

  /** One key of a metadata line. */
  method ReadKey(target: string, nextLineIsData: bool, last: MetaData, ops: seq<Op>, a: Action)
    returns (stop: Option<Worker>, next': bool, last': MetaData, ops': seq<Op>)
    ensures WorkerAction(target, Running(ModeOfVars(nextLineIsData, last), ops), a) ==
            if stop.Some? then stop.value else Running(ModeOfVars(next', last'), ops')
    ensures stop.Some? ==> !stop.value.Running?
    ensures stop.None? ==> WellSet(next', last')
  {
    next', last', ops' := nextLineIsData, map[], ops;
    if a.NotAnObject? {
      return Some(Error), next', last', ops';
    }
    if NeedsData(a.verb) {
      next' := true;
      last' := last'["operation" := Operation(a.verb)];
      if a.index != Some("") {
        last' := last'["_index" := ToValue(a.index)];
      } else {
        last' := last'["_index" := Text(target)];
      }
      if last'["_index"] == Text("") {
        return Some(Error), next', last', ops';
      }
      last' := last'["_id" := ToValue(a.id)];
    } else if a.verb.Delete? {
      next' := false;
      var indexName := target;
      if a.id.None? || a.index.None? {
        return Some(Panic), next', last', ops';
      }
      if a.index != Some("") {
        indexName := a.index.value;
      }
      if indexName == "" {
        return Some(Error), next', last', ops';
      }
      ops' := ops + [Remove(indexName, a.id.value)];
    } else {
      last' := last'["_index" := Text(target)];
      last' := last'["operation" := Operation(Index)];
    }
    stop := None;
  }

  lemma StoppedWorker(target: string, w: Worker, actions: seq<Action>)
    requires !w.Running?
    ensures WorkerActions(target, w, actions) == w
    decreases |actions|
  {
    if actions != [] { StoppedWorker(target, w, actions[1..]); }
  }

  /** The keys of a metadata line. */
  method ReadKeys(target: string, nextLineIsData: bool, last: MetaData, ops: seq<Op>, actions: seq<Action>)
    returns (stop: Option<Worker>, next': bool, last': MetaData, ops': seq<Op>)
    requires WellSet(nextLineIsData, last)
    ensures WorkerActions(target, Running(ModeOfVars(nextLineIsData, last), ops), actions) ==
            if stop.Some? then stop.value else Running(ModeOfVars(next', last'), ops')
    ensures stop.Some? ==> !stop.value.Running?
    ensures stop.None? ==> WellSet(next', last')
  {
    stop, next', last', ops' := None, nextLineIsData, last, ops;
    ghost var w := Running(ModeOfVars(nextLineIsData, last), ops);
    for k := 0 to |actions|
      invariant stop.None? && WellSet(next', last')
      invariant WorkerActions(target, w, actions) ==
                WorkerActions(target, Running(ModeOfVars(next', last'), ops'), actions[k..])
    {
      assert actions[k..][1..] == actions[k + 1..];
      stop, next', last', ops' := ReadKey(target, next', last', ops', actions[k]);
      if stop.Some? {
        StoppedWorker(target, stop.value, actions[k + 1..]);
        return;
      }
    }
  }

  lemma StoppedParse(target: string, lines: seq<Line>, i: nat)
    requires i <= |lines| && !Parse(target, lines[..i]).Running?
    ensures Parse(target, lines) == Parse(target, lines[..i])
    decreases |lines| - i
  {
    if i < |lines| {
      assert lines[..i + 1][..i] == lines[..i];
      StoppedParse(target, lines, i + 1);
    } else {
      assert lines[..i] == lines;
    }
  }

  /** The server's loop executes exactly the operations of the machine, and stops where it stops. */
  method BulkWorker(target: string, lines: seq<Line>) returns (w: Worker)
    ensures w == Parse(target, lines)
  {
    var nextLineIsData, last: MetaData, ops: seq<Op> := false, map[], [];
    for i := 0 to |lines|
      invariant WellSet(nextLineIsData, last)
      invariant Parse(target, lines[..i]) == Running(ModeOfVars(nextLineIsData, last), ops)
    {
      assert lines[..i + 1][..i] == lines[..i];
      if lines[i].Json? {
        if nextLineIsData {
          nextLineIsData := false;
          var op := TakeData(target, last, lines[i].text);
          if op.None? {
            StoppedParse(target, lines, i + 1);
            return Panic;
          }
          ops := ops + [op.value];
        } else {
          var stop;
          stop, nextLineIsData, last, ops := ReadKeys(target, nextLineIsData, last, ops, lines[i].actions);
          if stop.Some? {
            StoppedParse(target, lines, i + 1);
            return stop.value;
          }
        }
      }
    }
    assert lines[..|lines|] == lines;
    w := Running(ModeOfVars(nextLineIsData, last), ops);
  }

  // ------------------------------------------------------------------- the proxy

  /** What the flag and the last metadata stand for at the proxy, which keeps only the index. */
  function AwaitingOfVars(nextLineIsData: bool, last: MetaData): Awaiting {
    if nextLineIsData then DataFor(ToOption(Get(last, "_index"))) else NoData
  }

  /** Appends a line to the list of its index. */
  method FileLine(files: Files, index: string, line: Line) returns (files': Files)
    ensures forall i :: FileOf(files', i) == if i == index then FileOf(files, i) + [line] else FileOf(files, i)
    ensures files' == Filed(files, index, line)
  {
    if index !in files {
      files' := files[index := [line]];
      assert [] + [line] == [line];
    } else {
      files' := files[index := files[index] + [line]];
    }
  }

  method FileKey(target: string, nextLineIsData: bool, last: MetaData, files: Files, line: Line, a: Action)
    returns (stop: Option<Proxy>, next': bool, last': MetaData, files': Files)
    ensures ProxyAction(target, Running(AwaitingOfVars(nextLineIsData, last), files), line, a) ==
            if stop.Some? then stop.value else Running(AwaitingOfVars(next', last'), files')
    ensures stop.Some? ==> !stop.value.Running?
  {
    next', last', files' := nextLineIsData, map[], files;
    if a.NotAnObject? {
      return Some(Error), next', last', files';
    }
    if NeedsData(a.verb) {
      next' := true;
      if a.index != Some("") {
        last' := last'["_index" := ToValue(a.index)];
      } else {
        last' := last'["_index" := Text(target)];
      }
      if last'["_index"] == Text("") {
        return Some(Error), next', last', files';
      }
      if !last'["_index"].Text? {
        return Some(Panic), next', last', files';
      }
      files' := FileLine(files, last'["_index"].s, line);
    } else if a.verb.Delete? {
      next' := false;
      var indexName := target;
      if a.index != Some("") {
        if a.index.None? {
          return Some(Panic), next', last', files';
        }
        indexName := a.index.value;
      }
      if indexName == "" {
        return Some(Error), next', last', files';
      }
      files' := FileLine(files, indexName, line);
    }
    stop := None;
  }

  method FileKeys(target: string, nextLineIsData: bool, last: MetaData, files: Files, line: Line, actions: seq<Action>)
    returns (stop: Option<Proxy>, next': bool, last': MetaData, files': Files)
    ensures ProxyActions(target, Running(AwaitingOfVars(nextLineIsData, last), files), line, actions) ==
            if stop.Some? then stop.value else Running(AwaitingOfVars(next', last'), files')
    ensures stop.Some? ==> !stop.value.Running?
  {
    stop, next', last', files' := None, nextLineIsData, last, files;
    ghost var p := Running(AwaitingOfVars(nextLineIsData, last), files);
    for k := 0 to |actions|
      invariant stop.None?
      invariant ProxyActions(target, p, line, actions) ==
                ProxyActions(target, Running(AwaitingOfVars(next', last'), files'), line, actions[k..])
    {
      assert actions[k..][1..] == actions[k + 1..];
      stop, next', last', files' := FileKey(target, next', last', files', line, actions[k]);
      if stop.Some? {
        StoppedStays(target, stop.value, line, actions[k + 1..]);
        return;
      }
    }
  }

  lemma StoppedSplit(target: string, lines: seq<Line>, i: nat)
    requires i <= |lines| && !Split(target, lines[..i]).Running?
    ensures Split(target, lines) == Split(target, lines[..i])
    decreases |lines| - i
  {
    if i < |lines| {
      assert lines[..i + 1][..i] == lines[..i];
      StoppedSplit(target, lines, i + 1);
    } else {
      assert lines[..i] == lines;
    }
  }

  /** The proxy's loop over the lines files them as the machine does. */
  method FileLines(target: string, lines: seq<Line>) returns (p: Proxy)
    ensures p == Split(target, lines)
  {
    var nextLineIsData, last: MetaData, files: Files := false, map[], map[];
    for i := 0 to |lines|
      invariant Split(target, lines[..i]) == Running(AwaitingOfVars(nextLineIsData, last), files)
    {
      assert lines[..i + 1][..i] == lines[..i];
      if lines[i].Json? {
        if nextLineIsData {
          nextLineIsData := false;
          if !Get(last, "_index").Text? {
            StoppedSplit(target, lines, i + 1);
            return Panic;
          }
          files := FileLine(files, last["_index"].s, lines[i]);
        } else {
          var stop;
          stop, nextLineIsData, last, files := FileKeys(target, nextLineIsData, last, files, lines[i],
                                                        lines[i].actions);
          if stop.Some? {
            StoppedSplit(target, lines, i + 1);
            return stop.value;
          }
        }
      }
    }
    assert lines[..|lines|] == lines;
    p := Running(AwaitingOfVars(nextLineIsData, last), files);
  }

  // --------------------------------------------------------------- sending to nodes

  /** No index of the orders is outside this set. */
  ghost predicate Within(orders: map<string, seq<string>>, done: set<string>) {
    forall addr, i :: addr in orders && i in orders[addr] ==> i in done
  }

  lemma SendOneMore(files: Files, addrOf: map<string, string>, addr: string, order: seq<string>, lines: seq<Line>,
                    index: string)
    requires SentTo(files, addrOf, addr, order, lines) && index !in order
    requires index in files && index in addrOf && addrOf[index] == addr
    ensures SentTo(files, addrOf, addr, order + [index], lines + FileOf(files, index))
  {
    assert (order + [index])[..|order|] == order;
  }

  lemma DispatchOneMore(files: Files, addrOf: map<string, string>, orders: map<string, seq<string>>,
                        sent: map<string, seq<Line>>, addr: string, order: seq<string>, lines: seq<Line>)
    requires Dispatched(files, addrOf, orders, sent) && SentTo(files, addrOf, addr, order, lines)
    ensures Dispatched(files, addrOf, orders[addr := order], sent[addr := lines])
  {
  }

  lemma MoveOne(all: set<string>, done: set<string>, todo: set<string>, x: string)
    requires done + todo == all && done !! todo && x in todo
    ensures (done + {x}) + (todo - {x}) == all && (done + {x}) !! (todo - {x})
  {
  }

  lemma CoverOneMore(addrOf: map<string, string>, orders: map<string, seq<string>>, done: set<string>, index: string)
    requires Covered(done, addrOf, orders) && Within(orders, done) && index in addrOf
    ensures var addr := addrOf[index];
            var orders' := orders[addr := (if addr in orders then orders[addr] else []) + [index]];
            Covered(done + {index}, addrOf, orders') && Within(orders', done + {index})
  {
  }

  /** Sends each node the files of its indexes, visited in any order; an index without a node is an error. */
  method Dispatch(files: Files, addrOf: map<string, string>)
    returns (r: Option<map<string, seq<Line>>>, ghost orders: map<string, seq<string>>)
    ensures r.Some? <==> files.Keys <= addrOf.Keys
    ensures r.Some? ==> Dispatched(files, addrOf, orders, r.value) && Covered(files.Keys, addrOf, orders)
  {
    orders := map[];
    var sent, todo := map[], files.Keys;
    ghost var done := {};
    while todo != {}
      invariant done + todo == files.Keys && done !! todo && done <= addrOf.Keys
      invariant Dispatched(files, addrOf, orders, sent) && Covered(done, addrOf, orders) && Within(orders, done)
      decreases |todo|
    {
      var index :| index in todo;
      if index !in addrOf {
        return None, orders;
      }
      var addr := addrOf[index];
      ghost var order := if addr in orders then orders[addr] else [];
      var list := if addr in sent then sent[addr] else [];
      SendOneMore(files, addrOf, addr, order, list, index);
      DispatchOneMore(files, addrOf, orders, sent, addr, order + [index], list + FileOf(files, index));
      CoverOneMore(addrOf, orders, done, index);
      MoveOne(files.Keys, done, todo, index);
      orders := orders[addr := order + [index]];
      sent := sent[addr := list + FileOf(files, index)];
      todo := todo - {index};
      done := done + {index};
    }
    r := Some(sent);
  }

  /** What the proxy does with a body: a panic, an error, or the lines for each node. */
  datatype Outcome = Lines(sent: map<string, seq<Line>>) | Refused | Crashed

  /** Files the body and sends each node the lines of its indexes. */
  method ProcessBody(target: string, lines: seq<Line>, addrOf: map<string, string>)
    returns (r: Outcome, ghost orders: map<string, seq<string>>)
    ensures r.Crashed? <==> Split(target, lines).Panic?
    ensures r.Lines? <==> Split(target, lines).Running? && Split(target, lines).output.Keys <= addrOf.Keys
    ensures r.Lines? ==>
              && Dispatched(Split(target, lines).output, addrOf, orders, r.sent)
              && Covered(Split(target, lines).output.Keys, addrOf, orders)
  {
    orders := map[];
    var p := FileLines(target, lines);
    if p.Error? {
      return Refused, orders;
    }
    if p.Panic? {
      return Crashed, orders;
    }
    var sent;
    sent, orders := Dispatch(p.output, addrOf);
    r := if sent.Some? then Lines(sent.value) else Refused;
  }
}
