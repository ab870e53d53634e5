/**
 Bulk requests. The server runs a small line machine: a metadata line announces an operation, and for
 index, create and update the next line that parses is its data. The proxy runs the same machine to
 file lines under their index and sends each node the lines of its indexes, one index after another.

 The claim, for bodies whose metadata lines hold one action each: per index a node executes exactly the
 operations of the original body, in order, if and only if the body does not end awaiting the data of an
 index whose lines are followed by others in what the node is sent.
 */
module Bulk {
  import opened Wrappers
  import opened Sequences

  datatype Verb = Index | Create | Update | Delete | Unknown

  /** One key of a metadata object. The index is None if `_index` is missing; a value may be no object at all. */
  datatype Action = Action(verb: Verb, index: Option<string>, id: Option<string>) | NotAnObject

  /** A line of the body, with the keys of its object in the order they are visited. */
  datatype Line = Garbled(text: string) | Json(text: string, actions: seq<Action>)

  /** A document without an id gets a new one, which None stands for. */
  datatype Op = Put(index: string, verb: Verb, id: Option<string>, text: string) | Remove(index: string, docId: string)

  /** Waiting for metadata, or for the data line of an operation. */
  datatype Mode = Metadata | Data(index: Option<string>, verb: Verb, id: Option<string>)

  /** What the proxy remembers of the last metadata line. */
  datatype Awaiting = NoData | DataFor(index: Option<string>)

  /** A machine that has read some lines, or stopped with an error or a panic. */
  datatype Machine<M, T> = Running(mode: M, output: T) | Error | Panic

  type Worker = Machine<Mode, seq<Op>>

  type Files = map<string, seq<Line>>

  type Proxy = Machine<Awaiting, Files>

  predicate NeedsData(verb: Verb) {
    verb.Index? || verb.Create? || verb.Update?
  }

  /** An index given as the empty string stands for the one in the request path. */
  function Resolve(target: string, index: Option<string>): Option<string> {
    if index == Some("") then Some(target) else index
  }

  function GivenId(id: Option<string>): Option<string> {
    if id == Some("") then None else id
  }

  // ------------------------------------------------------------------ the server

  function WorkerAction(target: string, w: Worker, a: Action): Worker {
    if !w.Running? then w
    else if a.NotAnObject? then Error
    else
      var index := Resolve(target, a.index);
      if NeedsData(a.verb) then
        if index == Some("") then Error else Running(Data(index, a.verb, a.id), w.output)
      else if a.verb.Delete? then
        if a.id.None? || index.None? then Panic
        else if index == Some("") then Error
        else Running(Metadata, w.output + [Remove(index.value, a.id.value)])
      else if w.mode.Data? then Running(Data(Some(target), Index, None), w.output)
      else w
  }

  function WorkerActions(target: string, w: Worker, actions: seq<Action>): Worker
    decreases |actions|
  {
    if actions == [] then w else WorkerActions(target, WorkerAction(target, w, actions[0]), actions[1..])
  }

  function WorkerLine(target: string, w: Worker, line: Line): Worker {
    if !w.Running? || line.Garbled? then w
    else if w.mode.Data? then
      if w.mode.index.Some? then
        Running(Metadata, w.output + [Put(w.mode.index.value, w.mode.verb, GivenId(w.mode.id), line.text)])
      else if target != "" then
        Running(Metadata, w.output + [Put(target, w.mode.verb, GivenId(w.mode.id), line.text)])
      else Panic
    else WorkerActions(target, w, line.actions)
  }

  /** What the server makes of a body. */
  function Parse(target: string, lines: seq<Line>): Worker {
    if lines == [] then Running(Metadata, [])
    else WorkerLine(target, Parse(target, lines[..|lines| - 1]), lines[|lines| - 1])
  }

  // ------------------------------------------------------------------- the proxy

  function FileOf(files: Files, index: string): seq<Line> {
    if index in files then files[index] else []
  }

  function Filed(files: Files, index: string, line: Line): Files {
    files[index := FileOf(files, index) + [line]]
  }

  function ProxyAction(target: string, p: Proxy, line: Line, a: Action): Proxy {
    if !p.Running? then p
    else if a.NotAnObject? then Error
    else
      var index := Resolve(target, a.index);
      if NeedsData(a.verb) then
        if index == Some("") then Error
        else if index.None? then Panic
        else Running(DataFor(index), Filed(p.output, index.value, line))
      else if a.verb.Delete? then
        if index.None? then Panic
        else if index == Some("") then Error
        else Running(NoData, Filed(p.output, index.value, line))
      else if p.mode.DataFor? then Running(DataFor(None), p.output)
      else p
  }

  function ProxyActions(target: string, p: Proxy, line: Line, actions: seq<Action>): Proxy
    decreases |actions|
  {
    if actions == [] then p else ProxyActions(target, ProxyAction(target, p, line, actions[0]), line, actions[1..])
  }

  function ProxyLine(target: string, p: Proxy, line: Line): Proxy {
    if !p.Running? || line.Garbled? then p
    else if p.mode.DataFor? then
      if p.mode.index.Some? then Running(NoData, Filed(p.output, p.mode.index.value, line)) else Panic
    else ProxyActions(target, p, line, line.actions)
  }

  /** How the proxy files a body. */
  function Split(target: string, lines: seq<Line>): Proxy {
    if lines == [] then Running(NoData, map[])
    else ProxyLine(target, Split(target, lines[..|lines| - 1]), lines[|lines| - 1])
  }

  lemma ParseMore(target: string, lines: seq<Line>, line: Line)
    ensures Parse(target, lines + [line]) == WorkerLine(target, Parse(target, lines), line)
  {
    assert (lines + [line])[..|lines|] == lines;
  }

  // ------------------------------------------------------------- one action a line

  predicate IsKnown(a: Action) {
    a.NotAnObject? || !a.verb.Unknown?
  }

  /** The keys of a line that the machines act on. */
  function Known(actions: seq<Action>): seq<Action>
    decreases |actions|
  {
    if actions == [] then []
    else if IsKnown(actions[0]) then [actions[0]] + Known(actions[1..]) else Known(actions[1..])
  }

  predicate EndsUnknown(actions: seq<Action>) {
    actions != [] && !IsKnown(actions[|actions| - 1])
  }

  /** At most one key is acted on, and none is visited after one that announces data. */
  predicate OneAction(line: Line) {
    line.Json? ==>
      && |Known(line.actions)| <= 1
      && (Known(line.actions) != [] && Known(line.actions)[0].Action? && NeedsData(Known(line.actions)[0].verb) ==>
            !EndsUnknown(line.actions))
  }

  ghost predicate AllOneAction(lines: seq<Line>) {
    forall k :: 0 <= k < |lines| ==> OneAction(lines[k])
  }

  lemma {:induction false} UnknownsDoNothing(target: string, w: Worker, p: Proxy, line: Line, actions: seq<Action>)
    requires Known(actions) == [] && (w.Running? ==> w.mode.Metadata?) && (p.Running? ==> p.mode.NoData?)
    ensures WorkerActions(target, w, actions) == w && ProxyActions(target, p, line, actions) == p
    decreases |actions|
  {
    if actions != [] {
      UnknownsDoNothing(target, w, p, line, actions[1..]);
    }
  }

  lemma EndsUnknownTail(actions: seq<Action>)
    requires actions != [] && Known(actions[1..]) == [] && IsKnown(actions[0])
    ensures EndsUnknown(actions) || actions == [actions[0]]
  {
    if |actions| > 1 {
      LastIsUnknown(actions[1..]);
      assert actions[1..][|actions[1..]| - 1] == actions[|actions| - 1];
    }
  }

  lemma {:induction false} LastIsUnknown(actions: seq<Action>)
    requires actions != [] && Known(actions) == []
    ensures !IsKnown(actions[|actions| - 1])
    decreases |actions|
  {
    if |actions| > 1 {
      LastIsUnknown(actions[1..]);
      assert actions[1..][|actions[1..]| - 1] == actions[|actions| - 1];
    }
  }

  /** A line with one action is as good as that action. */
  lemma {:induction false} SingleAction(target: string, w: Worker, p: Proxy, line: Line, actions: seq<Action>)
    requires w.Running? && w.mode.Metadata? && p.Running? && p.mode.NoData? && |Known(actions)| <= 1
    requires Known(actions) != [] && Known(actions)[0].Action? && NeedsData(Known(actions)[0].verb) ==>
             !EndsUnknown(actions)
    ensures Known(actions) == [] ==>
              WorkerActions(target, w, actions) == w && ProxyActions(target, p, line, actions) == p
    ensures Known(actions) != [] ==>
              && WorkerActions(target, w, actions) == WorkerAction(target, w, Known(actions)[0])
              && ProxyActions(target, p, line, actions) == ProxyAction(target, p, line, Known(actions)[0])
    decreases |actions|
  {
    if actions != [] {
      var a, rest := actions[0], actions[1..];
      if IsKnown(a) {
        assert Known(rest) == [];
        var w', p' := WorkerAction(target, w, a), ProxyAction(target, p, line, a);
        if a.Action? && NeedsData(a.verb) {
          EndsUnknownTail(actions);
          assert rest == [];
        } else {
          UnknownsDoNothing(target, w', p', line, rest);
        }
      } else {
        assert EndsUnknown(actions) <==> (rest == [] || EndsUnknown(rest)) by {
          if rest != [] { assert rest[|rest| - 1] == actions[|actions| - 1]; }
        }
        SingleAction(target, w, p, line, rest);
      }
    }
  }

  // ------------------------------------------------------------- what is preserved

  /** The operations on one index, in order. */
  function OpsOf(ops: seq<Op>, index: string): seq<Op> {
    if ops == [] then []
    else OpsOf(ops[..|ops| - 1], index) + if ops[|ops| - 1].index == index then [ops[|ops| - 1]] else []
  }

  lemma OpsOfMore(ops: seq<Op>, op: Op, index: string)
    ensures OpsOf(ops + [op], index) == if op.index == index then OpsOf(ops, index) + [op] else OpsOf(ops, index)
  {
    assert (ops + [op])[..|ops|] == ops;
  }

  /** Where the machine of one index stands when that of the whole body is in this mode. */
  function ModeOf(mode: Mode, index: string): Mode {
    if mode.Data? && mode.index == Some(index) then mode else Metadata
  }

  predicate SameMode(mode: Mode, awaiting: Awaiting) {
    if mode.Data? then mode.index.Some? && awaiting == DataFor(mode.index) else awaiting.NoData?
  }

  /** Parsing the lines filed under an index gives the operations of the body on that index. */
  ghost predicate InStep(target: string, w: Worker, p: Proxy, index: string) {
    w.Running? && p.Running? && SameMode(w.mode, p.mode) &&
    Parse(target, FileOf(p.output, index)) == Running(ModeOf(w.mode, index), OpsOf(w.output, index))
  }

  lemma DataInStep(target: string, w: Worker, p: Proxy, line: Line, index: string)
    requires InStep(target, w, p, index) && line.Json? && w.mode.Data?
    ensures InStep(target, WorkerLine(target, w, line), ProxyLine(target, p, line), index)
  {
    var i := w.mode.index.value;
    var op := Put(i, w.mode.verb, GivenId(w.mode.id), line.text);
    OpsOfMore(w.output, op, index);
    ParseMore(target, FileOf(p.output, index), line);
  }

  lemma ActionInStep(target: string, w: Worker, p: Proxy, line: Line, a: Action, index: string)
    requires InStep(target, w, p, index) && w.mode.Metadata? && line.Json? && OneAction(line) &&
             Known(line.actions) == [a]
    requires IsKnown(a) && WorkerAction(target, w, a).Running? && ProxyAction(target, p, line, a).Running?
    ensures InStep(target, WorkerAction(target, w, a), ProxyAction(target, p, line, a), index)
  {
    if Resolve(target, a.index) != Some(index) {
      OtherActionInStep(target, w, p, line, a, index);
    } else {
      OwnActionInStep(target, w, p, line, a, index);
    }
  }

  lemma OwnActionInStep(target: string, w: Worker, p: Proxy, line: Line, a: Action, index: string)
    requires InStep(target, w, p, index) && w.mode.Metadata? && line.Json? && OneAction(line) &&
             Known(line.actions) == [a]
    requires IsKnown(a) && WorkerAction(target, w, a).Running? && ProxyAction(target, p, line, a).Running?
    requires Resolve(target, a.index) == Some(index)
    ensures InStep(target, WorkerAction(target, w, a), ProxyAction(target, p, line, a), index)
  {
    ParseOneAction(target, FileOf(p.output, index), OpsOf(w.output, index), line, a);
    if a.verb.Delete? {
      OpsOfMore(w.output, Remove(index, a.id.value), index);
    }
  }

  lemma ParseOneAction(target: string, file: seq<Line>, ops: seq<Op>, line: Line, a: Action)
    requires Parse(target, file) == Running(Metadata, ops) && line.Json? && OneAction(line) &&
             Known(line.actions) == [a]
    ensures Parse(target, file + [line]) == WorkerAction(target, Running(Metadata, ops), a)
  {
    SingleAction(target, Running(Metadata, ops), Running(NoData, map[]), line, line.actions);
    ParseMore(target, file, line);
  }

  /** An action on another index. */
  lemma OtherActionInStep(target: string, w: Worker, p: Proxy, line: Line, a: Action, index: string)
    requires InStep(target, w, p, index) && w.mode.Metadata? && IsKnown(a)
    requires WorkerAction(target, w, a).Running? && ProxyAction(target, p, line, a).Running?
    requires Resolve(target, a.index) != Some(index)
    ensures InStep(target, WorkerAction(target, w, a), ProxyAction(target, p, line, a), index)
  {
    if a.verb.Delete? {
      OpsOfMore(w.output, Remove(Resolve(target, a.index).value, a.id.value), index);
    }
  }

  lemma KnownIsKnown(actions: seq<Action>)
    ensures Known(actions) != [] ==> IsKnown(Known(actions)[0])
    decreases |actions|
  {
    if actions != [] { KnownIsKnown(actions[1..]); }
  }

  lemma {:induction false} FilesInStep(target: string, lines: seq<Line>, index: string)
    requires AllOneAction(lines) && Parse(target, lines).Running? && Split(target, lines).Running?
    ensures InStep(target, Parse(target, lines), Split(target, lines), index)
    decreases |lines|
  {
    if lines != [] {
      var n := |lines| - 1;
      var less, line := lines[..n], lines[n];
      var w, p := Parse(target, less), Split(target, less);
      FilesInStep(target, less, index);
      if line.Json? && w.mode.Data? {
        DataInStep(target, w, p, line, index);
      } else if line.Json? {
        SingleAction(target, w, p, line, line.actions);
        KnownIsKnown(line.actions);
        if Known(line.actions) != [] {
          assert Known(line.actions) == [Known(line.actions)[0]];
          ActionInStep(target, w, p, line, Known(line.actions)[0], index);
        }
      }
    }
  }

  lemma {:induction false} OpsOfOps(ops: seq<Op>, i: string, j: string)
    ensures OpsOf(OpsOf(ops, i), j) == if i == j then OpsOf(ops, i) else []
  {
    if ops != [] {
      var n := |ops| - 1;
      OpsOfOps(ops[..n], i, j);
      if ops[n].index == i {
        OpsOfMore(OpsOf(ops[..n], i), ops[n], j);
      } else {
        assert OpsOf(ops, i) == OpsOf(ops[..n], i);
      }
    }
  }

  lemma {:induction false} OpsOfConcat(a: seq<Op>, b: seq<Op>, index: string)
    ensures OpsOf(a + b, index) == OpsOf(a, index) + OpsOf(b, index)
    decreases |b|
  {
    if b == [] {
      assert a + b == a;
    } else {
      var n := |b| - 1;
      assert a + b == a + b[..n] + [b[n]];
      OpsOfConcat(a, b[..n], index);
      OpsOfMore(a + b[..n], b[n], index);
    }
  }

  // ------------------------------------------------------------ one file after another

  /** A machine that already has some output goes on like one that has none. */
  function After(before: seq<Op>, w: Worker): Worker {
    if w.Running? then Running(w.mode, before + w.output) else w
  }

  lemma ActionAfter(target: string, before: seq<Op>, w: Worker, a: Action)
    ensures WorkerAction(target, After(before, w), a) == After(before, WorkerAction(target, w, a))
  {
    if w.Running? && a.Action? && a.id.Some? && Resolve(target, a.index).Some? {
      var op := Remove(Resolve(target, a.index).value, a.id.value);
      assert before + w.output + [op] == before + (w.output + [op]);
    }
  }

  lemma {:induction false} ActionsAfter(target: string, before: seq<Op>, w: Worker, actions: seq<Action>)
    ensures WorkerActions(target, After(before, w), actions) == After(before, WorkerActions(target, w, actions))
    decreases |actions|
  {
    if actions != [] {
      ActionAfter(target, before, w, actions[0]);
      ActionsAfter(target, before, WorkerAction(target, w, actions[0]), actions[1..]);
    }
  }

  lemma LineAfter(target: string, before: seq<Op>, w: Worker, line: Line)
    ensures WorkerLine(target, After(before, w), line) == After(before, WorkerLine(target, w, line))
  {
    if w.Running? && line.Json? {
      if w.mode.Data? {
        var op := Put(if w.mode.index.Some? then w.mode.index.value else target, w.mode.verb, GivenId(w.mode.id),
                      line.text);
        assert before + w.output + [op] == before + (w.output + [op]);
      } else {
        ActionsAfter(target, before, w, line.actions);
      }
    }
  }

  /** Lines that leave the server waiting for metadata do not disturb those after them, whatever these are. */
  lemma {:induction false} ParseConcat(target: string, a: seq<Line>, b: seq<Line>)
    requires Parse(target, a).Running? && Parse(target, a).mode.Metadata?
    ensures Parse(target, a + b) == After(Parse(target, a).output, Parse(target, b))
    decreases |b|
  {
    var before := Parse(target, a).output;
    if b == [] {
      assert a + b == a && before + [] == before;
    } else {
      var n := |b| - 1;
      assert a + b == a + b[..n] + [b[n]];
      ParseConcat(target, a, b[..n]);
      ParseMore(target, a + b[..n], b[n]);
      LineAfter(target, before, Parse(target, b[..n]), b[n]);
    }
  }

  lemma {:induction false} ActionsGrow(target: string, w: Worker, actions: seq<Action>)
    requires WorkerActions(target, w, actions).Running?
    ensures w.Running? && w.output <= WorkerActions(target, w, actions).output
    decreases |actions|
  {
    if actions != [] {
      ActionsGrow(target, WorkerAction(target, w, actions[0]), actions[1..]);
    }
  }

  lemma LineGrows(target: string, w: Worker, line: Line)
    requires WorkerLine(target, w, line).Running?
    ensures w.Running? && w.output <= WorkerLine(target, w, line).output
  {
    if w.Running? && line.Json? && w.mode.Metadata? {
      ActionsGrow(target, w, line.actions);
    }
  }

  /** What has been executed is not taken back by further lines. */
  lemma {:induction false} ParseGrows(target: string, a: seq<Line>, b: seq<Line>)
    requires Parse(target, a + b).Running?
    ensures Parse(target, a).Running? && Parse(target, a).output <= Parse(target, a + b).output
    decreases |b|
  {
    if b == [] {
      assert a + b == a;
    } else {
      var n := |b| - 1;
      assert a + b == a + b[..n] + [b[n]];
      ParseMore(target, a + b[..n], b[n]);
      LineGrows(target, Parse(target, a + b[..n]), b[n]);
      ParseGrows(target, a, b[..n]);
    }
  }

  /** What a node is sent: the files of some indexes, one after another. */
  function Sent(files: Files, order: seq<string>): seq<Line> {
    if order == [] then [] else Sent(files, order[..|order| - 1]) + FileOf(files, order[|order| - 1])
  }

  lemma AddFile(before: seq<Op>, ops: seq<Op>, order: seq<string>, index: string)
    requires order != [] && NoDup(order)
    requires var less := order[..|order| - 1]; OpsOf(before, index) == if index in less then OpsOf(ops, index) else []
    ensures var last := order[|order| - 1];
            OpsOf(before + OpsOf(ops, last), index) == if index in order then OpsOf(ops, index) else []
  {
    var n := |order| - 1;
    OpsOfConcat(before, OpsOf(ops, order[n]), index);
    OpsOfOps(ops, order[n], index);
    assert index in order <==> index in order[..n] || index == order[n];
  }

  /** The body ends awaiting the data line of this index. */
  predicate Awaits(mode: Mode, index: string) {
    mode.Data? && mode.index == Some(index)
  }

  /**
   Whatever a node is sent of a body, in whatever order of indexes, as long as the body does not end
   awaiting data for one of them before the last: the node executes for each of them exactly the
   operations of the body on it, in order, and none for any other index.
   */
  lemma {:induction false} NodeExecutesItsIndexes(target: string, lines: seq<Line>, order: seq<string>, index: string)
    requires AllOneAction(lines) && NoDup(order) && Parse(target, lines).Running? && Split(target, lines).Running?
    requires forall k :: 0 <= k < |order| - 1 ==> !Awaits(Parse(target, lines).mode, order[k])
    ensures var w := Parse(target, Sent(Split(target, lines).output, order));
            && w.Running?
            && w.mode == (if order == [] then Metadata else ModeOf(Parse(target, lines).mode, order[|order| - 1]))
            && OpsOf(w.output, index) == if index in order then OpsOf(Parse(target, lines).output, index) else []
    decreases |order|
  {
    var files, ops := Split(target, lines).output, Parse(target, lines).output;
    if order != [] {
      var n := |order| - 1;
      var last := order[n];
      NodeExecutesItsIndexes(target, lines, order[..n], index);
      FilesInStep(target, lines, last);
      ParseConcat(target, Sent(files, order[..n]), FileOf(files, last));
      AddFile(Parse(target, Sent(files, order[..n])).output, ops, order, index);
    }
  }

  /** Running on these lines, a node executes exactly the body's operations on these indexes. */
  ghost predicate Executes(target: string, ops: seq<Op>, sent: seq<Line>, order: seq<string>) {
    forall index :: ExecutesOn(Parse(target, sent), ops, order, index)
  }

  ghost predicate ExecutesOn(w: Worker, ops: seq<Op>, order: seq<string>, index: string) {
    w.Running? && OpsOf(w.output, index) == if index in order then OpsOf(ops, index) else []
  }

  /** No line follows the file of an index whose data is still awaited. */
  ghost predicate Undisturbed(mode: Mode, files: Files, order: seq<string>) {
    forall k, j :: 0 <= k < j < |order| && Awaits(mode, order[k]) ==> FileOf(files, order[j]) == []
  }

  lemma {:induction false} SentConcat(files: Files, a: seq<string>, b: seq<string>)
    ensures Sent(files, a + b) == Sent(files, a) + Sent(files, b)
    decreases |b|
  {
    if b == [] {
      assert a + b == a;
    } else {
      assert (a + b)[..|a + b| - 1] == a + b[..|b| - 1];
      SentConcat(files, a, b[..|b| - 1]);
    }
  }

  lemma {:induction false} SentNothing(files: Files, order: seq<string>)
    ensures Sent(files, order) == [] <==> forall k :: 0 <= k < |order| ==> FileOf(files, order[k]) == []
    decreases |order|
  {
    if order != [] {
      SentNothing(files, order[..|order| - 1]);
      assert order == order[..|order| - 1] + [order[|order| - 1]];
    }
  }

  ghost predicate AllJson(lines: seq<Line>) {
    forall k :: 0 <= k < |lines| ==> lines[k].Json?
  }

  lemma {:induction false} ActionsFileJson(target: string, p: Proxy, line: Line, actions: seq<Action>, index: string)
    requires line.Json? && p.Running? && AllJson(FileOf(p.output, index)) &&
             ProxyActions(target, p, line, actions).Running?
    ensures AllJson(FileOf(ProxyActions(target, p, line, actions).output, index))
    decreases |actions|
  {
    if actions != [] {
      var p' := ProxyAction(target, p, line, actions[0]);
      if p'.Running? {
        ActionsFileJson(target, p', line, actions[1..], index);
      } else {
        StoppedStays(target, p', line, actions[1..]);
      }
    }
  }

  lemma {:induction false} StoppedStays(target: string, p: Proxy, line: Line, actions: seq<Action>)
    requires !p.Running?
    ensures ProxyActions(target, p, line, actions) == p
    decreases |actions|
  {
    if actions != [] { StoppedStays(target, p, line, actions[1..]); }
  }

  /** Only lines that parse are filed. */
  lemma {:induction false} FilesAreJson(target: string, lines: seq<Line>, index: string)
    requires Split(target, lines).Running?
    ensures AllJson(FileOf(Split(target, lines).output, index))
    decreases |lines|
  {
    if lines != [] {
      var p, line := Split(target, lines[..|lines| - 1]), lines[|lines| - 1];
      FilesAreJson(target, lines[..|lines| - 1], index);
      if line.Json? && p.mode.NoData? {
        ActionsFileJson(target, p, line, line.actions, index);
      }
    }
  }

  lemma {:induction false} SentIsJson(target: string, lines: seq<Line>, order: seq<string>)
    requires Split(target, lines).Running?
    ensures AllJson(Sent(Split(target, lines).output, order))
    decreases |order|
  {
    if order != [] {
      SentIsJson(target, lines, order[..|order| - 1]);
      FilesAreJson(target, lines, order[|order| - 1]);
    }
  }

  lemma OpsOfPrefix(a: seq<Op>, b: seq<Op>, index: string)
    requires a <= b
    ensures |OpsOf(a, index)| <= |OpsOf(b, index)|
  {
    assert b == a + b[|a|..];
    OpsOfConcat(a, b[|a|..], index);
  }

  /** A line that follows is taken for the awaited data: the node writes a document that the body does not. */
  lemma SwallowedLine(target: string, head: seq<Line>, tail: seq<Line>, index: string, ops: seq<Op>)
    requires Parse(target, head).Running? && Awaits(Parse(target, head).mode, index) && tail != [] && tail[0].Json?
    requires OpsOf(Parse(target, head).output, index) == OpsOf(ops, index) && Parse(target, head + tail).Running?
    ensures OpsOf(Parse(target, head + tail).output, index) != OpsOf(ops, index)
  {
    Swallow(target, head, tail[0], index);
    GrowsFrom(target, head, tail);
    OpsOfPrefix(Parse(target, head + [tail[0]]).output, Parse(target, head + tail).output, index);
  }

  lemma GrowsFrom(target: string, head: seq<Line>, tail: seq<Line>)
    requires tail != [] && Parse(target, head + tail).Running?
    ensures Parse(target, head + [tail[0]]).Running?
    ensures Parse(target, head + [tail[0]]).output <= Parse(target, head + tail).output
  {
    var more := head + [tail[0]];
    assert head + tail == more + tail[1..];
    ParseGrows(target, more, tail[1..]);
  }

  lemma Swallow(target: string, head: seq<Line>, line: Line, index: string)
    requires Parse(target, head).Running? && Awaits(Parse(target, head).mode, index) && line.Json?
    ensures Parse(target, head + [line]).Running?
    ensures |OpsOf(Parse(target, head + [line]).output, index)| == |OpsOf(Parse(target, head).output, index)| + 1
  {
    var w := Parse(target, head);
    ParseMore(target, head, line);
    OpsOfMore(w.output, Put(index, w.mode.verb, GivenId(w.mode.id), line.text), index);
  }

  lemma NothingAwaitedInside(target: string, lines: seq<Line>, order: seq<string>)
    requires AllOneAction(lines) && NoDup(order) && Parse(target, lines).Running? && Split(target, lines).Running?
    requires forall k :: 0 <= k < |order| - 1 ==> !Awaits(Parse(target, lines).mode, order[k])
    ensures Executes(target, Parse(target, lines).output, Sent(Split(target, lines).output, order), order)
  {
    var ops, sent := Parse(target, lines).output, Sent(Split(target, lines).output, order);
    forall index ensures ExecutesOn(Parse(target, sent), ops, order, index) {
      NodeExecutesItsIndexes(target, lines, order, index);
    }
  }

  /** The file of the awaited index comes at place k, and others after it. */
  lemma AwaitedAt(target: string, lines: seq<Line>, order: seq<string>, k: nat)
    requires AllOneAction(lines) && NoDup(order) && Parse(target, lines).Running? && Split(target, lines).Running?
    requires k < |order| && Awaits(Parse(target, lines).mode, order[k])
    ensures var files, ops := Split(target, lines).output, Parse(target, lines).output;
            Executes(target, ops, Sent(files, order), order) <==> Sent(files, order[k + 1..]) == []
  {
    var files, ops := Split(target, lines).output, Parse(target, lines).output;
    var first, rest := order[..k + 1], order[k + 1..];
    assert order == first + rest;
    SentConcat(files, first, rest);
    NothingAwaitedInside(target, lines, first);
    var head, tail := Sent(files, first), Sent(files, rest);
    if tail == [] {
      assert Sent(files, order) == head;
      SentNothing(files, rest);
      forall index ensures ExecutesOn(Parse(target, head), ops, order, index) {
        assert ExecutesOn(Parse(target, head), ops, first, index);
        if index in rest {
          FilesInStep(target, lines, index);
        }
      }
    } else {
      NodeExecutesItsIndexes(target, lines, first, order[k]);
      SentIsJson(target, lines, rest);
      if Parse(target, head + tail).Running? {
        SwallowedLine(target, head, tail, order[k], ops);
      }
      assert !ExecutesOn(Parse(target, head + tail), ops, order, order[k]);
    }
  }

  /**
   For bodies with one action per metadata line: a node that is sent the files of some indexes executes
   exactly the body's operations on them, if and only if the body does not end awaiting data, or no
   line follows the file of the awaited index in what the node is sent.
   */
  lemma NodeExecutesExactlyIff(target: string, lines: seq<Line>, order: seq<string>)
    requires AllOneAction(lines) && NoDup(order) && Parse(target, lines).Running? && Split(target, lines).Running?
    ensures var files, ops := Split(target, lines).output, Parse(target, lines).output;
            Executes(target, ops, Sent(files, order), order) <==> Undisturbed(Parse(target, lines).mode, files, order)
  {
    var mode, files := Parse(target, lines).mode, Split(target, lines).output;
    if k :| 0 <= k < |order| && Awaits(mode, order[k]) {
      AwaitedAt(target, lines, order, k);
      SentNothing(files, order[k + 1..]);
      assert forall j :: k < j < |order| ==> order[k + 1..][j - k - 1] == order[j];
    } else {
      NothingAwaitedInside(target, lines, order);
    }
  }

  // --------------------------------------------------------------- sending to nodes

  /** A node's lines are the files of these indexes, which are its own. */
  ghost predicate SentTo(files: Files, addrOf: map<string, string>, addr: string, order: seq<string>,
                         lines: seq<Line>) {
    && NoDup(order) && lines == Sent(files, order)
    && forall i :: i in order ==> i in files && i in addrOf && addrOf[i] == addr
  }

  /** Each node is sent the files of its own indexes, in some order. */
  ghost predicate Dispatched(files: Files, addrOf: map<string, string>, orders: map<string, seq<string>>,
                             sent: map<string, seq<Line>>)
  {
    && sent.Keys == orders.Keys
    && forall addr :: addr in sent ==> SentTo(files, addrOf, addr, orders[addr], sent[addr])
  }

  ghost predicate Covered(files: set<string>, addrOf: map<string, string>, orders: map<string, seq<string>>) {
    forall i :: i in files ==> i in addrOf && addrOf[i] in orders && i in orders[addrOf[i]]
  }

  /**
   The whole of it: every index that the body has operations on goes to its node, and every node executes
   exactly the operations on its own indexes, in order, if and only if nothing that a node is sent
   follows the file of an index whose data the body leaves awaited.
   */
  lemma SplittingPreservesOperations(target: string, lines: seq<Line>, addrOf: map<string, string>,
                                     orders: map<string, seq<string>>, sent: map<string, seq<Line>>)
    requires AllOneAction(lines) && Parse(target, lines).Running? && Split(target, lines).Running?
    requires Dispatched(Split(target, lines).output, addrOf, orders, sent)
    requires Covered(Split(target, lines).output.Keys, addrOf, orders)
    ensures (forall addr :: addr in sent ==>
               Executes(target, Parse(target, lines).output, sent[addr], orders[addr])) <==>
            (forall addr :: addr in sent ==>
               Undisturbed(Parse(target, lines).mode, Split(target, lines).output, orders[addr]))
    ensures forall addr, index :: addr in sent ==>
              (index in orders[addr] <==> index in Split(target, lines).output && addrOf[index] == addr)
    ensures forall index :: index !in Split(target, lines).output ==> OpsOf(Parse(target, lines).output, index) == []
  {
    forall addr | addr in sent
      ensures Executes(target, Parse(target, lines).output, sent[addr], orders[addr]) <==>
              Undisturbed(Parse(target, lines).mode, Split(target, lines).output, orders[addr])
    {
      assert SentTo(Split(target, lines).output, addrOf, addr, orders[addr], sent[addr]);
      NodeExecutesExactlyIff(target, lines, orders[addr]);
    }
    forall index | index !in Split(target, lines).output ensures OpsOf(Parse(target, lines).output, index) == [] {
      FilesInStep(target, lines, index);
    }
  }

  // ------------------------------------------------------------- where it goes wrong

  lemma SplitMore(target: string, lines: seq<Line>, line: Line)
    ensures Split(target, lines + [line]) == ProxyLine(target, Split(target, lines), line)
  {
    assert (lines + [line])[..|lines|] == lines;
  }

  function Announces(index: string, text: string): Line {
    Json(text, [Action(Index, Some(index), None)])
  }

  lemma Announced(target: string, w: Worker, p: Proxy, index: string, text: string)
    requires w.Running? && w.mode.Metadata? && p.Running? && p.mode.NoData? && index != ""
    ensures WorkerLine(target, w, Announces(index, text)) == Running(Data(Some(index), Index, None), w.output)
    ensures ProxyLine(target, p, Announces(index, text)) ==
            Running(DataFor(Some(index)), Filed(p.output, index, Announces(index, text)))
  {
    var a := Action(Index, Some(index), None);
    assert [a][1..] == [];
    assert WorkerActions(target, w, [a]) == WorkerAction(target, w, a);
    assert ProxyActions(target, p, Announces(index, text), [a]) == ProxyAction(target, p, Announces(index, text), a);
  }

  /**
   A body that ends awaiting data: the server writes the document of b. A node that owns a and b, and is sent
   a's file first, takes the metadata line of b for the data of a: b's document is lost and a gets a false one.
   */
  lemma AwaitedDataIsSwallowed(target: string, a: string, b: string, ma: string, mb: string, db: string)
    requires a != "" && b != "" && a != b
    ensures var body := [Announces(b, mb), Json(db, []), Announces(a, ma)];
            && Parse(target, body) == Running(Data(Some(a), Index, None), [Put(b, Index, None, db)])
            && Split(target, body).Running?
            && Parse(target, Sent(Split(target, body).output, [a, b])) == Running(Metadata, [Put(a, Index, None, mb)])
  {
    var la, lb, d := Announces(a, ma), Announces(b, mb), Json(db, []);
    var put := Put(b, Index, None, db);
    assert [] + [put] == [put];
    var f1 := Filed(map[], b, lb);
    var f2 := Filed(f1, b, d);
    var f3 := Filed(f2, a, la);
    ThreeLines(target, lb, d, la);
    Announced(target, Running(Metadata, []), Running(NoData, map[]), b, mb);
    Announced(target, Running(Metadata, [put]), Running(NoData, f2), a, ma);
    assert FileOf(f3, a) == [la] && FileOf(f3, b) == [lb, d];
    TwoFiles(f3, a, b);
    assert [la] + [lb, d] == [la, lb, d];
    SwallowedBody(target, a, ma, lb, d);
  }

  lemma TwoFiles(files: Files, a: string, b: string)
    ensures Sent(files, [a, b]) == FileOf(files, a) + FileOf(files, b)
  {
    assert [a, b][..1] == [a] && [a][..0] == [];
    assert Sent(files, [a]) == FileOf(files, a);
  }

  lemma SwallowedBody(target: string, a: string, ma: string, lb: Line, d: Line)
    requires a != "" && lb.Json? && d.Json? && d.actions == []
    ensures Parse(target, [Announces(a, ma), lb, d]) == Running(Metadata, [Put(a, Index, None, lb.text)])
  {
    ThreeLines(target, Announces(a, ma), lb, d);
    Announced(target, Running(Metadata, []), Running(NoData, map[]), a, ma);
    assert [] + [Put(a, Index, None, lb.text)] == [Put(a, Index, None, lb.text)];
  }

  lemma ThreeLines(target: string, a: Line, b: Line, c: Line)
    ensures Parse(target, [a, b, c]) ==
            WorkerLine(target, WorkerLine(target, WorkerLine(target, Running(Metadata, []), a), b), c)
    ensures Split(target, [a, b, c]) ==
            ProxyLine(target, ProxyLine(target, ProxyLine(target, Running(NoData, map[]), a), b), c)
  {
    assert [a, b, c] == [a, b] + [c] && [a, b] == [a] + [b] && [a] == [] + [a];
    ParseMore(target, [a, b], c);
    ParseMore(target, [a], b);
    ParseMore(target, [], a);
    SplitMore(target, [a, b], c);
    SplitMore(target, [a], b);
    SplitMore(target, [], a);
  }

  function Removes(index: string, id: string): Action {
    Action(Delete, Some(index), Some(id))
  }

  lemma TwoActions(target: string, w: Worker, p: Proxy, line: Line, a: Action, b: Action)
    ensures WorkerActions(target, w, [a, b]) == WorkerAction(target, WorkerAction(target, w, a), b)
    ensures ProxyActions(target, p, line, [a, b]) == ProxyAction(target, ProxyAction(target, p, line, a), line, b)
  {
    assert [a, b][1..] == [b] && [b][1..] == [];
    assert WorkerActions(target, WorkerAction(target, w, a), [b]) ==
           WorkerAction(target, WorkerAction(target, w, a), b);
    assert ProxyActions(target, ProxyAction(target, p, line, a), line, [b]) ==
           ProxyAction(target, ProxyAction(target, p, line, a), line, b);
  }

  lemma {:induction false} ActionsFile(target: string, p: Proxy, line: Line, actions: seq<Action>, index: string)
    requires ProxyActions(target, p, line, actions).Running?
    ensures p.Running? && FileOf(p.output, index) <= FileOf(ProxyActions(target, p, line, actions).output, index)
    decreases |actions|
  {
    if actions != [] {
      ActionsFile(target, ProxyAction(target, p, line, actions[0]), line, actions[1..], index);
    }
  }

  /** What has been filed stays filed. */
  lemma {:induction false} FilesGrow(target: string, a: seq<Line>, b: seq<Line>, index: string)
    requires Split(target, a + b).Running?
    ensures Split(target, a).Running?
    ensures FileOf(Split(target, a).output, index) <= FileOf(Split(target, a + b).output, index)
    decreases |b|
  {
    if b == [] {
      assert a + b == a;
    } else {
      var n := |b| - 1;
      assert a + b == a + b[..n] + [b[n]];
      SplitMore(target, a + b[..n], b[n]);
      FilesGrow(target, a, b[..n], index);
      var p := Split(target, a + b[..n]);
      if b[n].Json? && p.mode.NoData? {
        ActionsFile(target, p, b[n], b[n].actions, index);
      }
    }
  }

  /** A line that removes a document of one index and announces one of another. */
  function Mixed(text: string, i: string, x: string, verb: Verb, j: string, id: Option<string>): Line {
    Json(text, [Removes(i, x), Action(verb, Some(j), id)])
  }

  lemma MixedFile(target: string, prefix: seq<Line>, line: Line, i: string, x: string, verb: Verb, j: string,
                  id: Option<string>)
    requires AllOneAction(prefix) && Parse(target, prefix).Running? && Parse(target, prefix).mode.Metadata?
    requires Split(target, prefix).Running? && i != "" && j != "" && i != j && NeedsData(verb)
    requires line == Mixed(line.text, i, x, verb, j, id)
    ensures Split(target, prefix + [line]).Running?
    ensures FileOf(Split(target, prefix + [line]).output, j) == FileOf(Split(target, prefix).output, j) + [line]
    ensures var w := Parse(target, FileOf(Split(target, prefix).output, j) + [line]);
            w == Running(Data(Some(j), verb, id), OpsOf(Parse(target, prefix).output, j) + [Remove(i, x)])
  {
    var w, p := Parse(target, prefix), Split(target, prefix);
    FilesInStep(target, prefix, j);
    SplitMore(target, prefix, line);
    ParseMore(target, FileOf(p.output, j), line);
    TwoActions(target, Parse(target, FileOf(p.output, j)), p, line, Removes(i, x), Action(verb, Some(j), id));
  }

  /** A file that begins with the announced index's lines and the mixed one executes the removal. */
  lemma LeakedOp(target: string, head: seq<Line>, file: seq<Line>, ops: seq<Op>, i: string, x: string)
    requires head <= file && Parse(target, file).Running?
    requires Parse(target, head).Running? && Parse(target, head).output == ops + [Remove(i, x)]
    ensures OpsOf(Parse(target, file).output, i) != []
  {
    assert file == head + file[|head|..];
    ParseGrows(target, head, file[|head|..]);
    OpsOfPrefix(ops + [Remove(i, x)], Parse(target, file).output, i);
    OpsOfMore(ops, Remove(i, x), i);
  }

  /**
   Such a line is filed under both indexes, and the file of the announced one executes the removal, too:
   in no body with one action per line before it does the node of that index execute its operations only.
   */
  lemma MixedLineLeaks(target: string, prefix: seq<Line>, line: Line, rest: seq<Line>, i: string, x: string, verb: Verb,
                       j: string, id: Option<string>)
    requires AllOneAction(prefix) && Parse(target, prefix).Running? && Parse(target, prefix).mode.Metadata?
    requires Split(target, prefix).Running? && i != "" && j != "" && i != j && NeedsData(verb)
    requires line == Mixed(line.text, i, x, verb, j, id) && Split(target, prefix + [line] + rest).Running?
    ensures var file := FileOf(Split(target, prefix + [line] + rest).output, j);
            Parse(target, file).Running? ==> OpsOf(Parse(target, file).output, i) != []
    ensures forall ops :: !Executes(target, ops, FileOf(Split(target, prefix + [line] + rest).output, j), [j])
  {
    var head := FileOf(Split(target, prefix).output, j) + [line];
    var file := FileOf(Split(target, prefix + [line] + rest).output, j);
    MixedFile(target, prefix, line, i, x, verb, j, id);
    FilesGrow(target, prefix + [line], rest, j);
    if Parse(target, file).Running? {
      LeakedOp(target, head, file, OpsOf(Parse(target, prefix).output, j), i, x);
    }
    forall ops ensures !Executes(target, ops, file, [j]) {
      assert !ExecutesOn(Parse(target, file), ops, [j], i);
    }
  }

  // ---------------------------------------------------------- bodies the proxy refuses

  /** Every action that does something names its index. */
  predicate Named(actions: seq<Action>)
    decreases |actions|
  {
    actions == [] ||
    ((actions[0].Action? && !actions[0].verb.Unknown? ==> actions[0].index.Some?) && Named(actions[1..]))
  }

  lemma {:induction false} ActionsSplit(target: string, w: Worker, p: Proxy, line: Line, actions: seq<Action>)
    requires w.Running? && p.Running? && (w.mode.Data? <==> p.mode.DataFor?) &&
             WorkerActions(target, w, actions).Running?
    ensures ProxyActions(target, p, line, actions).Running? <==> Named(actions)
    ensures ProxyActions(target, p, line, actions).Running? || ProxyActions(target, p, line, actions).Panic?
    ensures Named(actions) ==>
              var w', p' := WorkerActions(target, w, actions), ProxyActions(target, p, line, actions);
              && (w'.mode.Data? <==> p'.mode.DataFor?)
              && (actions != [] && p'.mode.DataFor? ==> (p'.mode.index.None? <==> EndsUnknown(actions)))
    decreases |actions|
  {
    if actions != [] {
      var a, rest := actions[0], actions[1..];
      var w', p' := WorkerAction(target, w, a), ProxyAction(target, p, line, a);
      ActionsGrow(target, w', rest);
      if p'.Running? {
        ActionsSplit(target, w', p', line, rest);
        if rest != [] {
          assert rest[|rest| - 1] == actions[|actions| - 1];
        }
      } else {
        StoppedStays(target, p', line, rest);
      }
    }
  }

  /** The data awaited belongs to no index any more, because another key came after the one that announced it. */
  predicate Orphaned(target: string, lines: seq<Line>) {
    if lines == [] then false
    else
      var less, line := lines[..|lines| - 1], lines[|lines| - 1];
      if line.Garbled? then Orphaned(target, less)
      else Parse(target, less).Running? && Parse(target, less).mode.Metadata? && EndsUnknown(line.actions)
  }

  /** Every action read as metadata names its index, and no data line is orphaned. */
  predicate AllNameIndex(target: string, lines: seq<Line>) {
    if lines == [] then true
    else
      var less, line := lines[..|lines| - 1], lines[|lines| - 1];
      && AllNameIndex(target, less)
      && (line.Json? && Parse(target, less).Running? ==>
            if Parse(target, less).mode.Data? then !Orphaned(target, less) else Named(line.actions))
  }

  /**
   The server falls back to the request path where the proxy panics: of the bodies the server accepts, the
   proxy splits exactly those whose metadata lines name their index and leave no data line orphaned.
   */
  lemma {:induction false} SplitsExactlyIfNamed(target: string, lines: seq<Line>)
    requires Parse(target, lines).Running?
    ensures Split(target, lines).Running? <==> AllNameIndex(target, lines)
    ensures Split(target, lines).Running? || Split(target, lines).Panic?
    ensures Split(target, lines).Running? ==>
              var w, p := Parse(target, lines), Split(target, lines);
              && (w.mode.Data? <==> p.mode.DataFor?)
              && (p.mode.DataFor? ==> (p.mode.index.None? <==> Orphaned(target, lines)))
    decreases |lines|
  {
    if lines != [] {
      var less, line := lines[..|lines| - 1], lines[|lines| - 1];
      SplitsExactlyIfNamed(target, less);
      var w, p := Parse(target, less), Split(target, less);
      if p.Running? && line.Json? && w.mode.Metadata? {
        ActionsSplit(target, w, p, line, line.actions);
      }
    }
  }

  /** Such a body exists: one operation without an index, sent to the path of an index. */
  lemma UnnamedIndexPanics(target: string, meta: string, data: string)
    requires target != ""
    ensures var lines := [Json(meta, [Action(Index, None, None)]), Json(data, []), Garbled("")];
            Parse(target, lines) == Running(Metadata, [Put(target, Index, None, data)]) && Split(target, lines).Panic?
  {
    var a, b := Json(meta, [Action(Index, None, None)]), Json(data, []);
    assert [Action(Index, None, None)][1..] == [];
    assert WorkerLine(target, Running(Metadata, []), a) == Running(Data(None, Index, None), []);
    assert ProxyLine(target, Running(NoData, map[]), a) == Panic;
    assert [] + [Put(target, Index, None, data)] == [Put(target, Index, None, data)];
    ThreeLines(target, a, b, Garbled(""));
  }
}
