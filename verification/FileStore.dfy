/**
 The file store: one JSON document per submission, written to a temporary file that is then
 renamed. Writers run side by side and may stop at any moment, together or one by one.
 */
module FileStore {
  import opened Wrappers
  import opened Decimals
  import opened Schema

  type Document = seq<char>

  const JSON: string := ".json"
  const TEMP: string := ".tmp."

  /** Names inside one directory. The random part of a temporary name is a decimal number. */
  function TargetName(id: string): string {
    id + JSON
  }

  function TempName(id: string, random: nat): string {
    TargetName(id) + TEMP + Decimal(random)
  }

  lemma TempIsNoTarget(id: string, random: nat, other: string)
    ensures TempName(id, random) != TargetName(other)
  {
    DecimalDenotes(random);
    var temp, target := TempName(id, random), TargetName(other);
    assert IsDigit(temp[|temp| - 1]);
    assert target[|target| - 1] == 'n';
  }

  // ---------------------------------------------------------------- one record

  /** The stored record: all fields and the identifier, which takes the name ID. */
  method Record(fields: map<string, Value>, id: Value) returns (data: map<string, Value>)
    ensures data == fields["ID" := id]
  {
    data := map[];
    var remaining := fields.Keys;
    while remaining != {}
      invariant remaining <= fields.Keys
      invariant data.Keys == fields.Keys - remaining
      invariant forall k | k in data :: data[k] == fields[k]
      decreases remaining
    {
      var k :| k in remaining;
      remaining := remaining - {k};
      data := data[k := fields[k]];
    }
    data := data["ID" := id];
  }

  /** The record holds all source fields, as documented, exactly when no field is called ID with another value. */
  lemma RecordKeepsFields(fields: map<string, Value>, id: Value)
    ensures (forall k | k in fields :: fields["ID" := id][k] == fields[k]) <==> ("ID" in fields ==> fields["ID"] == id)
  {
  }

  // ---------------------------------------------------------------- writers side by side

  /** Where a writer stands; the stages before `Gone` own a temporary file, except after the rename. */
  datatype Stage = Before | Created(temp: string) | Writing(temp: string) | Closed(temp: string) | Renamed(temp: string)
                 | Failed(temp: string) | Returned(ok: bool) | Crashed

  datatype Writer = Writer(id: string, content: Document, stage: Stage)

  /** The files of the directory and the writers by number. */
  datatype Disk = Disk(files: map<string, Document>, writers: seq<Writer>)

  datatype Event =
    | Create(w: nat, random: nat)
    | CreateFails(w: nat)
    | Write(w: nat, upTo: nat)
    | WriteFails(w: nat)
    | Close(w: nat)
    | CloseFails(w: nat)
    | Rename(w: nat)
    | RenameFails(w: nat)
    | Cleanup(w: nat)
    | Crash(w: nat)

  function Target(w: Writer): string {
    TargetName(w.id)
  }

  function Move(d: Disk, w: nat, stage: Stage): seq<Writer>
    requires w < |d.writers|
  {
    d.writers[w := d.writers[w].(stage := stage)]
  }

  predicate Enabled(d: Disk, e: Event) {
    e.w < |d.writers|
    && var s := d.writers[e.w].stage;
       match e
       case Create(w, random) => s.Before? && TempName(d.writers[w].id, random) !in d.files
       case CreateFails(_) => s.Before?
       case Write(w, n) =>
         (s.Created? || s.Writing?) && s.temp in d.files && |d.files[s.temp]| <= n <= |d.writers[w].content|
       case WriteFails(_) => s.Created? || s.Writing?
       case Close(w) => (s.Writing? || s.Created?) && s.temp in d.files && d.files[s.temp] == d.writers[w].content
       case CloseFails(_) => s.Writing? || s.Created?
       case Rename(_) => s.Closed? && s.temp in d.files
       case RenameFails(_) => s.Closed?
       case Cleanup(_) => s.Renamed? || s.Failed?
       case Crash(_) => !s.Returned? && !s.Crashed?
  }

  /**
   The steps of a write, in the order of the code: create a new file, write, close, rename;
   on the way out, whether all went well or not, remove the temporary file, which after a
   rename is not there any more.
   */
  function Next(d: Disk, e: Event): Disk
    requires Enabled(d, e)
  {
    var w := e.w;
    var me := d.writers[w];
    match e
    case Create(_, random) =>
      var temp := TempName(me.id, random);
      Disk(d.files[temp := []], Move(d, w, Created(temp)))
    case CreateFails(_) => Disk(d.files, Move(d, w, Returned(false)))
    case Write(_, n) => Disk(d.files[me.stage.temp := me.content[..n]], Move(d, w, Writing(me.stage.temp)))
    case WriteFails(_) => Disk(d.files, Move(d, w, Failed(me.stage.temp)))
    case Close(_) => Disk(d.files, Move(d, w, Closed(me.stage.temp)))
    case CloseFails(_) => Disk(d.files, Move(d, w, Failed(me.stage.temp)))
    case Rename(_) =>
      Disk((d.files - {me.stage.temp})[Target(me) := d.files[me.stage.temp]], Move(d, w, Renamed(me.stage.temp)))
    case RenameFails(_) => Disk(d.files, Move(d, w, Failed(me.stage.temp)))
    case Cleanup(_) => Disk(d.files - {me.stage.temp}, Move(d, w, Returned(me.stage.Renamed?)))
    case Crash(_) => Disk(d.files, Move(d, w, Crashed))
  }

  ghost predicate Reaches(d: Disk, events: seq<Event>, t: Disk)
    decreases |events|
  {
    if events == [] then t == d
    else Enabled(d, events[0]) && Reaches(Next(d, events[0]), events[1..], t)
  }

  // ---------------------------------------------------------------- names apart

  /** A text of digits behind something else can be split off in one way only. */
  lemma DigitsSplitOnce(x: string, d: string, y: string, e: string)
    requires x + d == y + e && x != "" && y != "" && !IsDigit(x[|x| - 1]) && !IsDigit(y[|y| - 1])
    requires forall i | 0 <= i < |d| :: IsDigit(d[i])
    requires forall i | 0 <= i < |e| :: IsDigit(e[i])
    ensures x == y && d == e
  {
    var t := x + d;
    assert forall i | |x| <= i < |t| :: IsDigit(t[i]);
    forall i | |y| <= i < |t| ensures IsDigit(t[i]) {
      assert t[i] == e[i - |y|];
    }
    assert t[|x| - 1] == x[|x| - 1] && t[|y| - 1] == y[|y| - 1];
    assert |x| == |y|;
    assert x == t[..|x|] && y == t[..|y|];
  }

  lemma TempNamesApart(a: string, r: nat, b: string, q: nat)
    ensures TempName(a, r) == TempName(b, q) ==> a == b
  {
    DecimalDenotes(r);
    DecimalDenotes(q);
    var x, y := TargetName(a) + TEMP, TargetName(b) + TEMP;
    if TempName(a, r) == TempName(b, q) {
      DigitsSplitOnce(x, Decimal(r), y, Decimal(q));
      assert a == x[..|a|] && b == y[..|b|];
    }
  }

  lemma TargetNamesApart(a: string, b: string)
    ensures TargetName(a) == TargetName(b) ==> a == b
  {
    if TargetName(a) == TargetName(b) {
      assert a == TargetName(a)[..|a|] && b == TargetName(b)[..|b|];
    }
  }

  ghost predicate IsTempOf(id: string, name: string) {
    exists r: nat :: name == TempName(id, r)
  }

  /** The names that a writer may touch. */
  ghost predicate Owns(id: string, name: string) {
    name == TargetName(id) || IsTempOf(id, name)
  }

  lemma OwnersApart(a: string, b: string, name: string)
    requires Owns(a, name) && Owns(b, name)
    ensures a == b
  {
    if name == TargetName(a) {
      if name == TargetName(b) {
        TargetNamesApart(a, b);
      } else {
        var q: nat :| name == TempName(b, q);
        TempIsNoTarget(b, q, a);
      }
    } else {
      var r: nat :| name == TempName(a, r);
      if name == TargetName(b) {
        TempIsNoTarget(a, r, b);
      } else {
        var q: nat :| name == TempName(b, q);
        TempNamesApart(a, r, b, q);
      }
    }
  }

  // ---------------------------------------------------------------- the invariant

  predicate HasTemp(s: Stage) {
    s.Created? || s.Writing? || s.Closed? || s.Failed?
  }

  /** One writer and the files it owns. */
  ghost predicate WriterFits(files: map<string, Document>, w: Writer) {
    && (Target(w) in files ==> files[Target(w)] == w.content)
    && (w.stage.Renamed? || w.stage == Returned(true) ==> Target(w) in files)
    && (w.stage.Before? || HasTemp(w.stage) || w.stage == Returned(false) ==> Target(w) !in files)
    && (HasTemp(w.stage) ==>
          && IsTempOf(w.id, w.stage.temp) && w.stage.temp in files && files[w.stage.temp] <= w.content
          && (w.stage.Closed? ==> files[w.stage.temp] == w.content))
    && (w.stage.Renamed? ==> IsTempOf(w.id, w.stage.temp))
    && (!w.stage.Crashed? ==>
          forall name | IsTempOf(w.id, name) && name in files :: HasTemp(w.stage) && name == w.stage.temp)
  }

  ghost predicate DistinctIds(writers: seq<Writer>) {
    forall v, w | 0 <= v < w < |writers| :: writers[v].id != writers[w].id
  }

  ghost predicate Inv(d: Disk) {
    DistinctIds(d.writers) && forall w | 0 <= w < |d.writers| :: WriterFits(d.files, d.writers[w])
  }

  /** A step changes no file but those that its writer owns. */
  lemma OnlyOwnFiles(d: Disk, e: Event, name: string)
    requires Inv(d) && Enabled(d, e) && !Owns(d.writers[e.w].id, name)
    ensures name in Next(d, e).files <==> name in d.files
    ensures name in d.files ==> Next(d, e).files[name] == d.files[name]
  {
    assert WriterFits(d.files, d.writers[e.w]);
    if e.Create? {
      assert IsTempOf(d.writers[e.w].id, TempName(d.writers[e.w].id, e.random));
    }
  }

  lemma OthersFit(d: Disk, e: Event, v: nat)
    requires Inv(d) && Enabled(d, e) && v < |d.writers| && v != e.w
    ensures Next(d, e).writers[v] == d.writers[v]
    ensures WriterFits(Next(d, e).files, d.writers[v])
  {
    var me := d.writers[v];
    assert WriterFits(d.files, me);
    forall name | Owns(me.id, name)
      ensures name in Next(d, e).files <==> name in d.files
      ensures name in d.files ==> Next(d, e).files[name] == d.files[name]
    {
      if Owns(d.writers[e.w].id, name) {
        OwnersApart(me.id, d.writers[e.w].id, name);
      }
      OnlyOwnFiles(d, e, name);
    }
    hide Next, TargetName, TempName, Enabled;
    assert Owns(me.id, Target(me));
  }

  lemma WriterKeepsFitting(d: Disk, e: Event)
    requires Inv(d) && Enabled(d, e)
    ensures WriterFits(Next(d, e).files, Next(d, e).writers[e.w])
  {
    var me := d.writers[e.w];
    assert WriterFits(d.files, me);
    forall name | IsTempOf(me.id, name) ensures name != Target(me) {
      var r: nat :| name == TempName(me.id, r);
      TempIsNoTarget(me.id, r, me.id);
    }
    if e.Create? {
      assert IsTempOf(me.id, TempName(me.id, e.random));
    }
    hide TargetName, TempName;
  }

  lemma StepKeepsInv(d: Disk, e: Event)
    requires Inv(d) && Enabled(d, e)
    ensures Inv(Next(d, e))
  {
    var next := Next(d, e);
    WriterKeepsFitting(d, e);
    forall v: nat | v < |d.writers| && v != e.w ensures WriterFits(next.files, next.writers[v]) {
      OthersFit(d, e, v);
    }
    hide WriterFits;
    assert |next.writers| == |d.writers|;
    assert forall v: nat | v < |d.writers| :: next.writers[v].id == d.writers[v].id;
  }

  ghost predicate Start(d: Disk) {
    && DistinctIds(d.writers)
    && (forall w | 0 <= w < |d.writers| :: d.writers[w].stage.Before?)
    && (forall w, name | 0 <= w < |d.writers| && Owns(d.writers[w].id, name) :: name !in d.files)
  }

  lemma {:induction false} RunKeepsInv(d: Disk, events: seq<Event>, t: Disk)
    requires Inv(d) && Reaches(d, events, t)
    ensures Inv(t) && |t.writers| == |d.writers|
    ensures forall w | 0 <= w < |d.writers| ::
              t.writers[w].id == d.writers[w].id && t.writers[w].content == d.writers[w].content
    decreases |events|
  {
    if events != [] {
      StepKeepsInv(d, events[0]);
      RunKeepsInv(Next(d, events[0]), events[1..], t);
    }
  }

  /**
   In every interleaving of writers with distinct identifiers, stopped at any point: a
   target file is absent or holds the complete document of its writer; it is there when the
   writer reported success and absent when it reported failure; and a writer that returned,
   either way, has left no temporary file.
   */
  lemma AtomicWrites(d: Disk, events: seq<Event>, t: Disk, w: nat)
    requires Start(d) && Reaches(d, events, t) && w < |d.writers|
    ensures |t.writers| == |d.writers|
    ensures TargetName(d.writers[w].id) in t.files ==> t.files[TargetName(d.writers[w].id)] == d.writers[w].content
    ensures t.writers[w].stage.Returned? ==> (t.writers[w].stage.ok <==> TargetName(d.writers[w].id) in t.files)
    ensures t.writers[w].stage.Returned? ==> forall r: nat :: TempName(d.writers[w].id, r) !in t.files
  {
    forall v | 0 <= v < |d.writers| ensures WriterFits(d.files, d.writers[v]) {
      assert Owns(d.writers[v].id, Target(d.writers[v]));
      assert forall name | IsTempOf(d.writers[v].id, name) :: Owns(d.writers[v].id, name);
    }
    RunKeepsInv(d, events, t);
    assert WriterFits(t.files, t.writers[w]);
    if t.writers[w].stage.Returned? {
      forall r: nat ensures TempName(d.writers[w].id, r) !in t.files {
        assert IsTempOf(d.writers[w].id, TempName(d.writers[w].id, r));
      }
    }
  }

  /** Files that no writer owns are never touched. */
  lemma {:induction false} OtherFilesStay(d: Disk, events: seq<Event>, t: Disk, name: string)
    requires Inv(d) && Reaches(d, events, t)
    requires forall w | 0 <= w < |d.writers| :: !Owns(d.writers[w].id, name)
    ensures name in t.files <==> name in d.files
    ensures name in d.files ==> t.files[name] == d.files[name]
    decreases |events|
  {
    if events != [] {
      StepKeepsInv(d, events[0]);
      OnlyOwnFiles(d, events[0], name);
      OtherFilesStay(Next(d, events[0]), events[1..], t, name);
    }
  }

  // ---------------------------------------------------------------- one write, step by step

  class Directory {
    var files: map<string, Document>

    constructor ()
      ensures files == map[]
    {
      files := map[];
    }
  }

  /** What the file system answers: the random number it picks and which call fails. */
  datatype Faults = Faults(random: nat, create: bool, written: nat, write: bool, close: bool, rename: bool)

  lemma {:induction false} ReachesThen(d: Disk, events: seq<Event>, t: Disk, e: Event)
    requires Reaches(d, events, t) && Enabled(t, e)
    ensures Reaches(d, events + [e], Next(t, e))
    decreases |events|
  {
    if events == [] {
      assert [e][1..] == [];
    } else {
      ReachesThen(Next(d, events[0]), events[1..], t, e);
      assert (events + [e])[1..] == events[1..] + [e];
    }
  }

  function Alone(files: map<string, Document>, id: string, content: Document, stage: Stage): Disk {
    Disk(files, [Writer(id, content, stage)])
  }

  /** One more step of a writer that is alone. */
  lemma Advance(start: Disk, trace: seq<Event>, id: string, content: Document,
                files: map<string, Document>, stage: Stage, e: Event, files': map<string, Document>, stage': Stage)
    requires Reaches(start, trace, Alone(files, id, content, stage))
    requires Enabled(Alone(files, id, content, stage), e)
    requires Next(Alone(files, id, content, stage), e).files == files'
    requires Next(Alone(files, id, content, stage), e).writers[0].stage == stage'
    ensures Reaches(start, trace + [e], Alone(files', id, content, stage'))
  {
    ReachesThen(start, trace, Alone(files, id, content, stage), e);
    assert Next(Alone(files, id, content, stage), e) == Alone(files', id, content, stage');
  }

  /** The write as the code does it; what it does is a run of the steps above, up to its return. */
  method AtomicWrite(dir: Directory, id: string, content: Document, f: Faults)
    returns (ok: bool, ghost trace: seq<Event>)
    requires TempName(id, f.random) !in dir.files && f.written <= |content|
    modifies dir
    ensures Reaches(Alone(old(dir.files), id, content, Before), trace, Alone(dir.files, id, content, Returned(ok)))
    ensures ok <==> !f.create && !f.write && !f.close && !f.rename
    ensures dir.files == if ok then old(dir.files)[TargetName(id) := content] else old(dir.files)
  {
    hide TempName, TargetName;
    TempIsNoTarget(id, f.random, id);
    ghost var start := Alone(dir.files, id, content, Before);
    if f.create {
      Advance(start, [], id, content, dir.files, Before, CreateFails(0), dir.files, Returned(false));
      return false, [] + [CreateFails(0)];
    }
    var temp := TempName(id, f.random);
    Advance(start, [], id, content, dir.files, Before, Create(0, f.random), dir.files[temp := []], Created(temp));
    dir.files := dir.files[temp := []];

    ok, trace := WriteAndRename(dir, start, [] + [Create(0, f.random)], id, content, temp, f);

    Advance(start, trace, id, content, dir.files,
            if ok then Renamed(temp) else Failed(temp), Cleanup(0), dir.files - {temp}, Returned(ok));
    dir.files := dir.files - {temp};
    trace := trace + [Cleanup(0)];
  }

  /** Everything between the creation of the temporary file and the deferred cleanup. */
  method WriteAndRename(dir: Directory, ghost start: Disk, ghost before: seq<Event>,
                        id: string, content: Document, temp: string, f: Faults)
    returns (ok: bool, ghost trace: seq<Event>)
    requires temp in dir.files && dir.files[temp] == [] && f.written <= |content|
    requires Reaches(start, before, Alone(dir.files, id, content, Created(temp)))
    requires temp != TargetName(id)
    modifies dir
    ensures ok <==> !f.write && !f.close && !f.rename
    ensures ok ==> dir.files == (old(dir.files) - {temp})[TargetName(id) := content]
    ensures !ok ==> dir.files - {temp} == old(dir.files) - {temp}
    ensures Reaches(start, trace, Alone(dir.files, id, content, if ok then Renamed(temp) else Failed(temp)))
  {
    hide Reaches;
    var n := if f.write then f.written else |content|;
    Advance(start, before, id, content, dir.files, Created(temp), Write(0, n),
            dir.files[temp := content[..n]], Writing(temp));
    dir.files := dir.files[temp := content[..n]];
    trace := before + [Write(0, n)];
    if f.write {
      Advance(start, trace, id, content, dir.files, Writing(temp), WriteFails(0), dir.files, Failed(temp));
      return false, trace + [WriteFails(0)];
    }
    if f.close {
      Advance(start, trace, id, content, dir.files, Writing(temp), CloseFails(0), dir.files, Failed(temp));
      return false, trace + [CloseFails(0)];
    }
    Advance(start, trace, id, content, dir.files, Writing(temp), Close(0), dir.files, Closed(temp));
    trace := trace + [Close(0)];
    if f.rename {
      Advance(start, trace, id, content, dir.files, Closed(temp), RenameFails(0), dir.files, Failed(temp));
      return false, trace + [RenameFails(0)];
    }
    Advance(start, trace, id, content, dir.files, Closed(temp), Rename(0),
            (dir.files - {temp})[TargetName(id) := dir.files[temp]], Renamed(temp));
    dir.files := (dir.files - {temp})[TargetName(id) := dir.files[temp]];
    return true, trace + [Rename(0)];
  }

  /** The result of storing: the record, if it could be serialized, and whether it was written. */
  datatype Stored = NotSerialized | Attempted(record: map<string, Value>, written: bool)

  /** `marshal` is the JSON encoder, which may refuse a record. */
  method Store(dir: Directory, fields: map<string, Value>, id: string, idValue: Value,
               marshal: map<string, Value> -> Option<Document>, f: Faults) returns (r: Stored)
    requires TempName(id, f.random) !in dir.files
    requires forall d | marshal(fields["ID" := idValue]) == Some(d) :: f.written <= |d|
    modifies dir
    ensures r.NotSerialized? <==> marshal(fields["ID" := idValue]).None?
    ensures r.Attempted? ==> r.record == fields["ID" := idValue]
    ensures dir.files == if r.Attempted? && r.written
                         then old(dir.files)[TargetName(id) := marshal(fields["ID" := idValue]).value]
                         else old(dir.files)
  {
    var data := Record(fields, idValue);
    var document := marshal(data);
    if document.None? {
      return NotSerialized;
    }
    var ok, _ := AtomicWrite(dir, id, document.value, f);
    return Attempted(data, ok);
  }
}
