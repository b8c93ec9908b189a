/** The lexical protocol's response envelope (scripts/cass_lexical_ipc.py). */
module Protocol {
  import opened Prelude

  datatype Json =
    | Null
    | Bool(flag: bool)
    | Int(number: int)
    | Real(value: real)
    | Str(text: string)
    | Arr(items: seq<Json>)
    | Obj(fields: map<string, Json>)

  type Message = map<string, Json>

  /** `get`: a missing key reads as null. */
  function Get(m: Message, key: string): Json {
    if key in m then m[key] else Null
  }

  const ENVELOPE: set<string> := {"schema_version", "id", "ok", "result", "error"}

  const ADMISSION: set<string> := {"mode", "owner_epoch", "full_verify_requested", "persistent_proof",
                                   "file_identity_checked", "immutable_generation_certified"}

  predicate ReusedReader(m: Message) {
    Get(m, "result").Obj? && Get(Get(m, "result").fields, "reader_reused") == Bool(true)
  }

  function Epoch(m: Message): int {
    if Get(m, "admission").Obj? && Get(Get(m, "admission").fields, "owner_epoch").Int?
    then Get(Get(m, "admission").fields, "owner_epoch").number else 0
  }

  function Mode(m: Message): Json {
    if Get(m, "admission").Obj? then Get(Get(m, "admission").fields, "mode") else Null
  }

  const STRICT := Str("strict_full")
  const RETAINED := Str("retained_guarded")

  predicate ValidEnvelope(m: Message, id: int, client: bool) {
    && m.Keys <= (if client then ENVELOPE + {"admission"} else ENVELOPE)
    && Get(m, "id") == Int(id)
    && Get(m, "ok").Bool?
    && Get(m, "schema_version") == Int(1)
  }

  predicate ValidError(m: Message) {
    Get(m, "error").Obj? && Get(m, "result").Null? && Get(m, "admission").Null?
  }

  predicate ValidResult(m: Message) {
    && Get(m, "result").Obj? && Get(m, "error").Null?
    && Get(Get(m, "result").fields, "reader_reused").Bool?
  }

  predicate ValidAdmission(m: Message, full: bool) {
    && Get(m, "admission").Obj?
    && var a := Get(m, "admission").fields;
    && a.Keys == ADMISSION
    && a["owner_epoch"].Int? && 0 < a["owner_epoch"].number < U64
    && a["full_verify_requested"] == Bool(full)
    && a["persistent_proof"] == Bool(false)
    && a["file_identity_checked"] == Bool(true)
    && a["immutable_generation_certified"] == Bool(false)
    && a["mode"] == (if ReusedReader(m) then RETAINED else STRICT)
    && !(full && ReusedReader(m))
  }

  /** The native form of the validator. */
  predicate ValidNative(m: Message, id: int) {
    && ValidEnvelope(m, id, false)
    && if m["ok"].flag then ValidResult(m) else ValidError(m)
  }

  /** The client's form: it additionally requires an admission that honours its request. */
  predicate ValidClient(m: Message, id: int, full: bool) {
    && ValidEnvelope(m, id, true)
    && if m["ok"].flag then ValidResult(m) && ValidAdmission(m, full) else ValidError(m)
  }

  /** The admission that goes with a result. */
  function AdmissionOf(reused: bool, full: bool, epoch: int): map<string, Json> {
    map["mode" := Str(if reused then "retained_guarded" else "strict_full"), "owner_epoch" := Int(epoch),
        "full_verify_requested" := Bool(full), "persistent_proof" := Bool(false),
        "file_identity_checked" := Bool(true), "immutable_generation_certified" := Bool(false)]
  }

  /** What the owner adds to a native answer. */
  function Augment(m: Message, id: int, full: bool, epoch: nat): Message {
    m["id" := Int(id)]["admission" := Obj(AdmissionOf(ReusedReader(m), full, epoch))]
  }

  /** What the worker must send: these keys at most, the request's number, and either a result that says whether
      the reader was reused, without an error, or an error without a result. */
  lemma NativeExactly(m: Message, id: int)
    ensures ValidNative(m, id) <==>
      && (forall key | key in m ::
            key == "schema_version" || key == "id" || key == "ok" || key == "result" || key == "error")
      && Get(m, "schema_version") == Int(1) && Get(m, "id") == Int(id)
      && ((Get(m, "ok") == Bool(true) && Get(m, "error").Null? && Get(m, "result").Obj?
           && Get(Get(m, "result").fields, "reader_reused").Bool?)
          || (Get(m, "ok") == Bool(false) && Get(m, "error").Obj? && Get(m, "result").Null?))
  {
  }

  /** What the client must get: the same with an admission beside a result, and none beside an error. */
  lemma ClientExactly(m: Message, id: int, full: bool)
    ensures ValidClient(m, id, full) <==>
      && (forall key | key in m && key != "admission" :: key in ENVELOPE)
      && Get(m, "schema_version") == Int(1) && Get(m, "id") == Int(id)
      && ((Get(m, "ok") == Bool(true) && Get(m, "error").Null? && Get(m, "result").Obj?
           && Get(Get(m, "result").fields, "reader_reused").Bool? && Get(m, "admission").Obj?
           && exists reused, epoch ::
                && Get(Get(m, "result").fields, "reader_reused") == Bool(reused) && 0 < epoch < U64 && !(full && reused)
                && Get(m, "admission").fields == AdmissionOf(reused, full, epoch))
          || (Get(m, "ok") == Bool(false) && Get(m, "error").Obj? && Get(m, "result").Null?
              && Get(m, "admission").Null?))
  {
    if Get(m, "admission").Obj? && Get(m, "result").Obj? && Get(Get(m, "result").fields, "reader_reused").Bool? {
      var reused := Get(Get(m, "result").fields, "reader_reused").flag;
      AdmissionExactly(Get(m, "admission").fields, reused, full);
      assert ReusedReader(m) == reused;
    }
  }

  lemma AdmissionExactly(a: map<string, Json>, reused: bool, full: bool)
    ensures (exists epoch :: 0 < epoch < U64 && a == AdmissionOf(reused, full, epoch)) <==>
      && a.Keys == ADMISSION && a["owner_epoch"].Int? && 0 < a["owner_epoch"].number < U64
      && a["full_verify_requested"] == Bool(full) && a["persistent_proof"] == Bool(false)
      && a["file_identity_checked"] == Bool(true) && a["immutable_generation_certified"] == Bool(false)
      && a["mode"] == if reused then RETAINED else STRICT
  {
    if epoch :| 0 < epoch < U64 && a == AdmissionOf(reused, full, epoch) {
      assert a.Keys == ADMISSION;
    }
    if a.Keys == ADMISSION && a["owner_epoch"].Int? {
      var epoch := a["owner_epoch"].number;
      var b := AdmissionOf(reused, full, epoch);
      assert b.Keys == ADMISSION;
      if (forall key | key in ADMISSION :: a[key] == b[key]) { assert a == b; }
    }
  }

  /** A valid native answer, augmented, satisfies the client's validator exactly when the epoch
      fits 64 bits, is not zero, and a full verification was not answered from a reused reader. */
  lemma AugmentedIsValid(m: Message, nativeId: int, id: int, full: bool, epoch: nat)
    requires ValidNative(m, nativeId) && m["ok"].flag
    ensures var r := Augment(m, id, full, epoch);
      && (ValidClient(r, id, full) <==> 0 < epoch < U64 && !(full && ReusedReader(m)))
      && r.Keys == m.Keys + {"admission"} && r["id"] == Int(id)
      && (forall key | key != "id" && key != "admission" :: Get(r, key) == Get(m, key))
      && Epoch(r) == epoch
      && ReusedReader(r) == ReusedReader(m)
      && Mode(r) == (if ReusedReader(m) then RETAINED else STRICT)
  {
    var r := Augment(m, id, full, epoch);
    var a := r["admission"].fields;
    assert a.Keys == ADMISSION;
    assert Get(r, "result") == Get(m, "result") && Get(r, "error") == Get(m, "error");
    assert r.Keys <= ENVELOPE + {"admission"};
  }

  /** A native error reply under the client's id is one the client accepts. */
  lemma ErrorIsValid(m: Message, nativeId: int, id: int, full: bool)
    requires ValidNative(m, nativeId) && !m["ok"].flag
    ensures var r := m["id" := Int(id)];
      ValidClient(r, id, full) && !r["ok"].flag && Get(r, "error") == Get(m, "error")
  {
    assert m["id" := Int(id)].Keys <= ENVELOPE + {"admission"};
  }

  /** What a client may conclude from an accepted answer. */
  lemma AcceptedAnswer(m: Message, id: int, full: bool)
    requires ValidClient(m, id, full) && m["ok"].flag
    ensures (Mode(m) == RETAINED <==> ReusedReader(m)) && (Mode(m) == STRICT <==> !ReusedReader(m))
    ensures full ==> Mode(m) == STRICT
    ensures 0 < Epoch(m) < U64 && m["id"] == Int(id)
  {
    var a := m["admission"].fields;
    assert "mode" in ADMISSION && "owner_epoch" in ADMISSION;
    assert |"strict_full"| != |"retained_guarded"|;
    assert STRICT != RETAINED;
  }
}
