/**
  * Pending incident-create records (frontend/lib/incident-create.ts): sessionStorage with an in-memory override
  * that also holds tombstones, which together must behave as one plain map while writes and removals may fail.
  */
module PendingCaptures {

  import opened Options

  // --- Records and their stored form ---

  datatype Number = Finite(value: real) | NonFinite

  datatype Capture =
    | Create(requestId: string, title: string, summary: string, windowStart: string, windowEnd: Option<string>,
             createdAt: Number, sentAt: Option<Number>, id: Option<string>)
    | Conflict(sentAt: Option<Number>)

  /** The property names the records use; any other property is ignored. */
  datatype Name =
    | RequestIdName | TitleName | SummaryName | WindowStartName | WindowEndName | CreatedAtName | SentAtName
    | IdName | ConflictName | OtherName(text: string)

  datatype Json = Null | Bool(b: bool) | Num(n: Number) | Str(s: string) | Arr(items: seq<Json>) | Obj(fields: map<Name, Json>)

  /** A stored string: empty, not JSON, or the JSON it spells. The spelling itself is the platform's. */
  datatype Raw = Blank | NotJson | Spells(json: Json)

  function NumJson(n: Number): Json { if n.Finite? then Num(n) else Null }

  /** The fields JSON.stringify writes for an optional property: none when it is absent. */
  function OptField(name: Name, v: Option<Json>): map<Name, Json>
  {
    if v.Some? then map[name := v.value] else map[]
  }

  function OptStr(v: Option<string>): Option<Json> { if v.Some? then Some(Str(v.value)) else None }

  function OptNum(v: Option<Number>): Option<Json> { if v.Some? then Some(NumJson(v.value)) else None }

  function Stringify(rec: Capture): Raw
  {
    match rec
    case Create(requestId, title, summary, windowStart, windowEnd, createdAt, sentAt, id) =>
      Spells(Obj(map[RequestIdName := Str(requestId), TitleName := Str(title), SummaryName := Str(summary),
                     WindowStartName := Str(windowStart), CreatedAtName := NumJson(createdAt)]
                 + OptField(WindowEndName, OptStr(windowEnd)) + OptField(SentAtName, OptNum(sentAt)) + OptField(IdName, OptStr(id))))
    case Conflict(sentAt) =>
      Spells(Obj(map[ConflictName := Bool(true)] + OptField(SentAtName, OptNum(sentAt))))
  }

  function Field(fields: map<Name, Json>, name: Name): Option<Json> { if name in fields then Some(fields[name]) else None }

  predicate IsStr(v: Option<Json>) { v.Some? && v.value.Str? }

  /** A non-empty string property, otherwise absent. */
  function NonEmpty(v: Option<Json>): Option<string> { if IsStr(v) && v.value.s != "" then Some(v.value.s) else None }

  /** A finite number property, otherwise absent. */
  function FiniteNum(v: Option<Json>): Option<Number>
  {
    if v.Some? && v.value.Num? && v.value.n.Finite? then Some(v.value.n) else None
  }

  function Parse(raw: Option<Raw>): Option<Capture>
  {
    if raw.None? || !raw.value.Spells? || !raw.value.json.Obj? then None
    else
      var f := raw.value.json.fields;
      if Field(f, ConflictName) == Some(Bool(true)) then Some(Conflict(FiniteNum(Field(f, SentAtName))))
      else
        var requestId, title := Field(f, RequestIdName), Field(f, TitleName);
        var summary, windowStart := Field(f, SummaryName), Field(f, WindowStartName);
        if !IsStr(requestId) || requestId.value.s == "" || !IsStr(title) || !IsStr(summary) || !IsStr(windowStart) then None
        else
          var createdAt := FiniteNum(Field(f, CreatedAtName));
          Some(Create(requestId.value.s, title.value.s, summary.value.s, windowStart.value.s,
                      NonEmpty(Field(f, WindowEndName)),
                      if createdAt.Some? then createdAt.value else Finite(0.0),
                      FiniteNum(Field(f, SentAtName)), NonEmpty(Field(f, IdName))))
  }

  predicate WellFormed(rec: Capture)
  {
    match rec
    case Create(requestId, _, _, _, windowEnd, createdAt, sentAt, id) =>
      && requestId != "" && windowEnd != Some("") && createdAt.Finite? && sentAt != Some(NonFinite) && id != Some("")
    case Conflict(sentAt) => sentAt != Some(NonFinite)
  }

  /** Storing and reading back gives the record unchanged exactly for well-formed records. */
  lemma ParseOfStringify(rec: Capture)
    ensures Parse(Some(Stringify(rec))) == Some(rec) <==> WellFormed(rec)
  {
    if rec.Create? {
      hide Stringify, Field, NonEmpty, FiniteNum, NumJson, OptStr, OptNum;
      CreateFields(rec);
      OptionalStr(rec.windowEnd);
      OptionalStr(rec.id);
      OptionalNum(rec.sentAt);
      RequiredNum(rec.createdAt);
    } else {
      hide Parse, FiniteNum, NumJson, OptNum;
      OptionalNum(rec.sentAt);
      assert Parse(Some(Stringify(rec))) == Some(Conflict(FiniteNum(OptNum(rec.sentAt)))) by { ConflictFields(rec.sentAt); }
    }
  }

  /** What reading back makes of any record: what JSON cannot carry, or what is empty, is lost; no request id, no record. */
  function Repaired(rec: Capture): Option<Capture>
  {
    match rec
    case Conflict(sentAt) => Some(Conflict(if sentAt == Some(NonFinite) then None else sentAt))
    case Create(requestId, title, summary, windowStart, windowEnd, createdAt, sentAt, id) =>
      if requestId == "" then None
      else Some(Create(requestId, title, summary, windowStart,
                       if windowEnd == Some("") then None else windowEnd,
                       if createdAt.Finite? then createdAt else Finite(0.0),
                       if sentAt == Some(NonFinite) then None else sentAt,
                       if id == Some("") then None else id))
  }

  lemma ReadBackIsRepaired(rec: Capture)
    ensures Parse(Some(Stringify(rec))) == Repaired(rec)
  {
    if rec.Create? {
      hide Stringify, Field, NumJson, OptStr, OptNum, NonEmpty, FiniteNum;
      CreateFields(rec);
      RepairedStr(rec.windowEnd);
      RepairedStr(rec.id);
      RepairedNum(rec.sentAt);
      RequiredNum(rec.createdAt);
    } else {
      hide Parse, FiniteNum, NumJson, OptNum;
      ConflictFields(rec.sentAt);
      RepairedNum(rec.sentAt);
    }
  }

  lemma RepairedStr(v: Option<string>)
    ensures NonEmpty(OptStr(v)) == if v == Some("") then None else v
  {
  }

  lemma RepairedNum(v: Option<Number>)
    ensures FiniteNum(OptNum(v)) == if v == Some(NonFinite) then None else v
  {
  }

  lemma ConflictFields(sentAt: Option<Number>)
    ensures Parse(Some(Stringify(Conflict(sentAt)))) == Some(Conflict(FiniteNum(OptNum(sentAt))))
  {
    hide FiniteNum, NumJson, OptNum;
    var f := Stringify(Conflict(sentAt)).json.fields;
    assert Field(f, ConflictName) == Some(Bool(true)) && Field(f, SentAtName) == OptNum(sentAt);
  }

  lemma OptionalStr(v: Option<string>)
    ensures NonEmpty(OptStr(v)) == v <==> v != Some("")
  {
  }

  lemma OptionalNum(v: Option<Number>)
    ensures FiniteNum(OptNum(v)) == v <==> v != Some(NonFinite)
  {
  }

  lemma RequiredNum(n: Number)
    ensures FiniteNum(Some(NumJson(n))) == if n.Finite? then Some(n) else None
  {
  }

  /** Which properties a stored create record has. */
  lemma CreateFields(rec: Capture)
    requires rec.Create?
    ensures Stringify(rec).Spells? && Stringify(rec).json.Obj?
    ensures var f := Stringify(rec).json.fields;
            && Field(f, ConflictName) == None
            && Field(f, RequestIdName) == Some(Str(rec.requestId)) && Field(f, TitleName) == Some(Str(rec.title))
            && Field(f, SummaryName) == Some(Str(rec.summary)) && Field(f, WindowStartName) == Some(Str(rec.windowStart))
            && Field(f, CreatedAtName) == Some(NumJson(rec.createdAt))
            && Field(f, WindowEndName) == OptStr(rec.windowEnd) && Field(f, SentAtName) == OptNum(rec.sentAt)
            && Field(f, IdName) == OptStr(rec.id)
  {
    hide NumJson, OptField, Field, Stringify;
    FieldOfCreate(rec, ConflictName);
    FieldOfCreate(rec, RequestIdName);
    FieldOfCreate(rec, TitleName);
    FieldOfCreate(rec, SummaryName);
    FieldOfCreate(rec, WindowStartName);
    FieldOfCreate(rec, CreatedAtName);
    FieldOfCreate(rec, WindowEndName);
    FieldOfCreate(rec, SentAtName);
    FieldOfCreate(rec, IdName);
    RequiredFields(rec, Required(rec));
  }

  function Required(rec: Capture): map<Name, Json>
    requires rec.Create?
  {
    map[RequestIdName := Str(rec.requestId), TitleName := Str(rec.title), SummaryName := Str(rec.summary),
        WindowStartName := Str(rec.windowStart), CreatedAtName := NumJson(rec.createdAt)]
  }

  /** The value of one property: an optional one if present, otherwise a required one. */
  lemma FieldOfCreate(rec: Capture, name: Name)
    requires rec.Create?
    ensures Stringify(rec).Spells? && Stringify(rec).json.Obj?
    ensures Field(Stringify(rec).json.fields, name) ==
            if name.IdName? && rec.id.Some? then OptStr(rec.id)
            else if name.SentAtName? && rec.sentAt.Some? then OptNum(rec.sentAt)
            else if name.WindowEndName? && rec.windowEnd.Some? then OptStr(rec.windowEnd)
            else Field(Required(rec), name)
  {
    hide OptField, Field, NumJson;
    var f0 := Required(rec);
    var f1 := f0 + OptField(WindowEndName, OptStr(rec.windowEnd));
    var f2 := f1 + OptField(SentAtName, OptNum(rec.sentAt));
    FieldOfUnion(f0, WindowEndName, OptStr(rec.windowEnd), name);
    FieldOfUnion(f1, SentAtName, OptNum(rec.sentAt), name);
    FieldOfUnion(f2, IdName, OptStr(rec.id), name);
  }

  lemma RequiredFields(rec: Capture, f: map<Name, Json>)
    requires rec.Create? && f == Required(rec)
    ensures Field(f, RequestIdName) == Some(Str(rec.requestId)) && Field(f, TitleName) == Some(Str(rec.title))
    ensures Field(f, SummaryName) == Some(Str(rec.summary)) && Field(f, WindowStartName) == Some(Str(rec.windowStart))
    ensures Field(f, CreatedAtName) == Some(NumJson(rec.createdAt))
    ensures Field(f, ConflictName) == Field(f, WindowEndName) == Field(f, SentAtName) == Field(f, IdName) == None
  {
    hide NumJson;
  }

  lemma FieldOfUnion(f: map<Name, Json>, name: Name, v: Option<Json>, asked: Name)
    ensures Field(f + OptField(name, v), asked) == if asked == name && v.Some? then v else Field(f, asked)
  {
  }

  // --- Storage with an override ---

  /** sessionStorage under the prefix, and the module's Map: a record newer than storage, or None for a tombstone. */
  datatype Shadowed = Shadowed(storage: map<string, Raw>, fallback: map<string, Option<Capture>>)

  function Stored(s: Shadowed, key: string): Option<Capture>
  {
    Parse(if key in s.storage then Some(s.storage[key]) else None)
  }

  /** What a read returns. */
  function Lookup(s: Shadowed, key: string): Option<Capture>
  {
    if key in s.fallback then s.fallback[key] else Stored(s, key)
  }

  function AfterRead(s: Shadowed, key: string): Shadowed
  {
    if key in s.fallback && s.fallback[key].None? && Stored(s, key).None? then s.(fallback := s.fallback - {key}) else s
  }

  function Written(s: Shadowed, key: string, rec: Capture, setOk: bool): Shadowed
  {
    if setOk then Shadowed(s.storage[key := Stringify(rec)], s.fallback - {key})
    else s.(fallback := s.fallback[key := Some(rec)])
  }

  function Cleared(s: Shadowed, key: string, removeOk: bool): Shadowed
  {
    if removeOk then Shadowed(s.storage - {key}, s.fallback - {key})
    else if Stored(s, key).None? then s.(fallback := s.fallback - {key})
    else s.(fallback := s.fallback[key := None])
  }

  /** Storage refuses to remove the keys in `refuses`. */
  function AllCleared(s: Shadowed, refuses: set<string>): Shadowed
  {
    Shadowed(map k | k in s.storage && k in refuses :: s.storage[k],
             map k | k in s.storage && k in refuses && Stored(s, k).Some? :: None)
  }

  /** The keys of `start` outside `doomed` are cleared, each unless storage refuses; the others are untouched. */
  ghost predicate PartlyCleared(start: map<string, Raw>, refuses: set<string>, doomed: set<string>, s: Shadowed)
  {
    && (forall k :: k in s.storage <==> k in start && (k in doomed || k in refuses))
    && (forall k :: k in s.storage ==> s.storage[k] == start[k])
    && (forall k :: k in s.fallback <==> k in start && k !in doomed && k in refuses && Parse(Some(start[k])).Some?)
    && (forall k :: k in s.fallback ==> s.fallback[k] == None)
  }

  lemma NoneCleared(start: map<string, Raw>, refuses: set<string>)
    ensures PartlyCleared(start, refuses, start.Keys, Shadowed(start, map[]))
  {
    hide Parse;
  }

  lemma ClearOne(start: map<string, Raw>, refuses: set<string>, doomed: set<string>, s: Shadowed, key: string,
                 rest: set<string>, s': Shadowed)
    requires PartlyCleared(start, refuses, doomed, s) && key in doomed && doomed <= start.Keys
    requires rest == doomed - {key} && s' == Cleared(s, key, key !in refuses)
    ensures PartlyCleared(start, refuses, rest, s')
  {
    hide Parse;
  }

  lemma ClearedAll(s0: Shadowed, refuses: set<string>, s: Shadowed)
    requires PartlyCleared(s0.storage, refuses, {}, s)
    ensures s == AllCleared(s0, refuses)
  {
    hide Parse;
    var all := AllCleared(s0, refuses);
    assert s.storage == all.storage;
    assert s.fallback == all.fallback;
  }

  // --- The module itself ---

  class CaptureStore {
    var storage: map<string, Raw>
    var fallback: map<string, Option<Capture>>

    ghost function Value(): Shadowed
      reads this
    {
      Shadowed(storage, fallback)
    }

    function StoredNow(key: string): Option<Capture>
      reads this
    {
      Parse(if key in storage then Some(storage[key]) else None)
    }

    method ReadPendingCapture(key: string) returns (rec: Option<Capture>)
      modifies this
      ensures rec == Lookup(old(Value()), key) && Value() == AfterRead(old(Value()), key)
    {
      hide Parse;
      if key in fallback {
        rec := fallback[key];
        if rec.None? && StoredNow(key).None? {
          fallback := fallback - {key};
        }
        return;
      }
      rec := StoredNow(key);
    }

    method WritePendingCapture(key: string, rec: Capture, setOk: bool)
      modifies this
      ensures Value() == Written(old(Value()), key, rec, setOk)
    {
      hide Stringify;
      if setOk {
        storage := storage[key := Stringify(rec)];
        fallback := fallback - {key};
      } else {
        fallback := fallback[key := Some(rec)];
      }
    }

    method ClearPendingCapture(key: string, removeOk: bool)
      modifies this
      ensures Value() == Cleared(old(Value()), key, removeOk)
    {
      hide Parse;
      if removeOk {
        storage := storage - {key};
        fallback := fallback - {key};
      } else if StoredNow(key).None? {
        fallback := fallback - {key};
      } else {
        fallback := fallback[key := None];
      }
    }

    method ClearPendingCaptures(refuses: set<string>)
      modifies this
      ensures Value() == AllCleared(old(Value()), refuses)
    {
      hide PartlyCleared, Cleared, AllCleared;
      var doomed := storage.Keys;
      ghost var start := storage;
      fallback := map[];
      assert PartlyCleared(start, refuses, doomed, Value()) by { NoneCleared(start, refuses); }
      while doomed != {}
        invariant doomed <= start.Keys && PartlyCleared(start, refuses, doomed, Value())
        decreases |doomed|
      {
        var key :| key in doomed;
        ClearOne(start, refuses, doomed, Value(), key, doomed - {key}, Cleared(Value(), key, key !in refuses));
        doomed := doomed - {key};
        ClearPendingCapture(key, key !in refuses);
      }
      ClearedAll(old(Value()), refuses, Value());
    }
  }

  // --- One plain map ---

  datatype Op =
    | Write(key: string, rec: Capture, setOk: bool)
    | Clear(key: string, removeOk: bool)
    | ClearAll(refuses: set<string>)
    | Read(key: string)

  function Apply(s: Shadowed, op: Op): Shadowed
  {
    match op
    case Write(key, rec, setOk) => Written(s, key, rec, setOk)
    case Clear(key, removeOk) => Cleared(s, key, removeOk)
    case ClearAll(refuses) => AllCleared(s, refuses)
    case Read(key) => AfterRead(s, key)
  }

  function ApplyAll(s: Shadowed, ops: seq<Op>): Shadowed
  {
    if ops == [] then s else Apply(ApplyAll(s, ops[..|ops| - 1]), ops[|ops| - 1])
  }

  /** The last word on a key: what was written since it was last cleared, or what it held to begin with. */
  function LastWord(before: Option<Capture>, ops: seq<Op>, key: string): Option<Capture>
  {
    if ops == [] then before
    else
      match ops[|ops| - 1]
      case Write(k, rec, _) => if k == key then Some(rec) else LastWord(before, ops[..|ops| - 1], key)
      case Clear(k, _) => if k == key then None else LastWord(before, ops[..|ops| - 1], key)
      case ClearAll(_) => None
      case Read(_) => LastWord(before, ops[..|ops| - 1], key)
  }

  predicate WritesWellFormed(ops: seq<Op>) { forall i :: 0 <= i < |ops| && ops[i].Write? ==> WellFormed(ops[i].rec) }

  lemma ApplyLookup(s: Shadowed, op: Op, key: string)
    requires op.Write? ==> WellFormed(op.rec)
    ensures Lookup(Apply(s, op), key) ==
            match op
            case Write(k, rec, _) => if k == key then Some(rec) else Lookup(s, key)
            case Clear(k, _) => if k == key then None else Lookup(s, key)
            case ClearAll(_) => None
            case Read(_) => Lookup(s, key)
  {
    hide Parse, Stringify;
    if op.Write? { ParseOfStringify(op.rec); }
    ParseOfNothing();
  }

  lemma ParseOfNothing()
    ensures Parse(None).None?
  {
  }

  /**
    * Over every sequence of writes, clears, clear-alls and reads, with storage refusing writes and removals at
    * will, a read returns the last record written for its key, or nothing after a clear: one plain map.
    */
  lemma {:induction false} BehavesAsPlainMap(s: Shadowed, ops: seq<Op>, key: string)
    requires WritesWellFormed(ops)
    ensures Lookup(ApplyAll(s, ops), key) == LastWord(Lookup(s, key), ops, key)
  {
    hide Lookup;
    if ops != [] {
      BehavesAsPlainMap(s, ops[..|ops| - 1], key);
      ApplyLookup(ApplyAll(s, ops[..|ops| - 1]), ops[|ops| - 1], key);
    }
  }

  /** An ill-formed record is returned changed, or not at all, exactly when storage accepted it. */
  lemma IllFormedWrite(s: Shadowed, key: string, rec: Capture, setOk: bool)
    ensures Lookup(Written(s, key, rec, setOk), key) == Some(rec) <==> WellFormed(rec) || !setOk
  {
    hide Parse, Stringify, WellFormed;
    ParseOfStringify(rec);
  }

  /** A tombstone stays only while it shadows something: after a read of a cleared key none is left over a readable nothing. */
  lemma TombstonesShadowSomething(s: Shadowed, key: string)
    ensures var s' := AfterRead(s, key);
            key in s'.fallback && s'.fallback[key].None? ==> Stored(s', key).Some?
  {
    hide Parse;
  }
}
