// A prepared request on its way through a file: rendered, saved, loaded and taken up again, it is
// the request that was frozen.

module SavedRequests {
  import opened Wrappers
  import opened Json
  import opened JsonProofs
  import opened RequestFiles
  import opened Ledger
  import opened LedgerKeys
  import opened LedgerRequests

  // The store a request belongs to, and its runtime domain.
  datatype Place = Place(path: string, domain: string)

  // ------------------------------------------------------------------ rendering

  function HeadFields(n: Naming, targets: seq<string>, heads: seq<Id>): (r: seq<Field>)
    requires |heads| == |targets|
    ensures |r| == |targets| && forall i | 0 <= i < |r| :: r[i] == Field(targets[i], Str(n.name(heads[i])))
  {
    seq(|targets|, i requires 0 <= i < |targets| => Field(targets[i], Str(n.name(heads[i]))))
  }

  function BodyOf(n: Naming, place: Place, revision: nat, request: Saved): seq<Field>
    requires |request.heads| == |request.targets|
  {
    [Field("schema", Str(REQUEST_SCHEMA)),
     Field("store_path", Str(place.path)),
     Field("domain_id", Str(place.domain)),
     Field("observed_revision", Int(revision)),
     Field("targets", Arr(Strings(request.targets))),
     Field("previous_by_target", Obj(HeadFields(n, request.targets, request.heads))),
     Field("action", Str(if request.worker == "" then "clear" else "set")),
     Field("worker_id", if request.worker == "" then Null else Str(request.worker)),
     Field("reason", Str(request.reason)),
     Field("batch_base", Str(request.base))]
  }

  // The dictionary prepare_assignment_request returns
  function RenderRequest(n: Naming, place: Place, revision: nat, request: Saved): Json
    requires |request.heads| == |request.targets|
  {
    var body := BodyOf(n, place, revision, request);
    Obj(body + [Field("request_id", Str(n.hash(Encode(Obj(body)))))])
  }

  // What is asked of the arguments, of the workspace and of the frozen heads.
  predicate Accepts(n: Naming, place: Place, request: Saved)
    requires |request.heads| == |request.targets|
  {
    && 1 <= |request.targets| <= MAX_TARGETS && Distinct(request.targets)
    && (forall t | t in request.targets :: IsBounded(t, MAX_ID_BYTES))
    && (forall h | h in request.heads :: IsBounded(n.name(h), MAX_ID_BYTES))
    && IsBounded(request.reason, MAX_TEXT_BYTES) && IsBounded(request.base, MAX_TEXT_BYTES)
    && (request.worker != "" ==> IsBounded(request.worker, MAX_TEXT_BYTES))
    && place.path != "" && place.path[0] == '/' && IsBounded(place.path, MAX_ID_BYTES)
    && IsBounded(place.domain, MAX_ID_BYTES)
  }

  lemma NamesApart(n: Naming, place: Place, revision: nat, request: Saved)
    requires |request.heads| == |request.targets|
    ensures DistinctKeys(RenderRequest(n, place, revision, request).fields)
  {
    hide Encode, Strings, HeadFields;
    var fields := RenderRequest(n, place, revision, request).fields;
    KeysApart(fields);
  }

  lemma KeysApart(fields: seq<Field>)
    requires |fields| == 11
    requires fields[0].key == "schema" && fields[1].key == "store_path" && fields[2].key == "domain_id"
    requires fields[3].key == "observed_revision" && fields[4].key == "targets" && fields[5].key == "previous_by_target"
    requires fields[6].key == "action" && fields[7].key == "worker_id" && fields[8].key == "reason"
    requires fields[9].key == "batch_base" && fields[10].key == "request_id"
    ensures DistinctKeys(fields)
  {
  }

  lemma GetAt(fields: seq<Field>, i: nat)
    requires DistinctKeys(fields) && i < |fields|
    ensures Get(fields, fields[i].key) == Some(fields[i].value)
  {
    hide Get, DistinctKeys;
    GetField(fields, fields[i].key);
    assert fields[i] in fields;
  }

  // Each member of the rendered dictionary
  lemma RenderedFields(n: Naming, place: Place, revision: nat, request: Saved)
    requires |request.heads| == |request.targets|
    ensures var v := RenderRequest(n, place, revision, request);
            && v.Obj? && |v.fields| == REQUEST_FIELDS
            && Get(v.fields, "schema") == Some(Str(REQUEST_SCHEMA))
            && Get(v.fields, "store_path") == Some(Str(place.path))
            && Get(v.fields, "domain_id") == Some(Str(place.domain))
            && Get(v.fields, "observed_revision") == Some(Int(revision))
            && Get(v.fields, "targets") == Some(Arr(Strings(request.targets)))
            && Get(v.fields, "previous_by_target") == Some(Obj(HeadFields(n, request.targets, request.heads)))
            && Get(v.fields, "action") == Some(Str(if request.worker == "" then "clear" else "set"))
            && Get(v.fields, "worker_id") == Some(if request.worker == "" then Null else Str(request.worker))
            && Get(v.fields, "reason") == Some(Str(request.reason))
            && Get(v.fields, "batch_base") == Some(Str(request.base))
  {
    hide Encode, Get, Strings, HeadFields, DistinctKeys;
    NamesApart(n, place, revision, request);
    var f := RenderRequest(n, place, revision, request).fields;
    GetAt(f, 0);
    GetAt(f, 1);
    GetAt(f, 2);
    GetAt(f, 3);
    GetAt(f, 4);
    GetAt(f, 5);
    GetAt(f, 6);
    GetAt(f, 7);
    GetAt(f, 8);
    GetAt(f, 9);
  }

  // The id is the digest of all the other members.
  lemma RenderedId(n: Naming, place: Place, revision: nat, request: Saved)
    requires |request.heads| == |request.targets|
    ensures var f := RenderRequest(n, place, revision, request).fields;
            Get(f, "request_id") == Some(Str(RequestId(n.hash, f)))
  {
    hide Encode, Get, BodyOf, DistinctKeys;
    NamesApart(n, place, revision, request);
    var body := BodyOf(n, place, revision, request);
    var last := Field("request_id", Str(n.hash(Encode(Obj(body)))));
    assert RenderRequest(n, place, revision, request).fields == body + [last];
    GetAt(body + [last], |body|);
    WithoutLast(body, last);
  }

  lemma WithoutLast(body: seq<Field>, last: Field)
    requires DistinctKeys(body + [last])
    ensures Without(body + [last], last.key) == body
  {
    forall f | f in body ensures f.key != last.key {
      var i :| 0 <= i < |body| && body[i] == f;
      assert (body + [last])[i] == f && (body + [last])[|body|] == last;
    }
    WithoutOnly(body, last);
  }

  lemma {:induction false} WithoutOnly(body: seq<Field>, last: Field)
    requires forall f | f in body :: f.key != last.key
    ensures Without(body + [last], last.key) == body
  {
    if body == [] {
      assert Without([last][1..], last.key) == [];
    } else {
      assert (body + [last])[1..] == body[1..] + [last];
      WithoutOnly(body[1..], last);
    }
  }

  lemma RenderedKeyed(n: Naming, place: Place, revision: nat, request: Saved)
    requires |request.heads| == |request.targets| && Distinct(request.targets)
    ensures WellKeyed(RenderRequest(n, place, revision, request))
  {
    hide Encode;
    NamesApart(n, place, revision, request);
    hide DistinctKeys;
    assert WellKeyed(Arr(Strings(request.targets)));
    HeadsKeyed(n, request);
  }

  lemma HeadsKeyed(n: Naming, request: Saved)
    requires |request.heads| == |request.targets| && Distinct(request.targets)
    ensures WellKeyed(Obj(HeadFields(n, request.targets, request.heads)))
  {
  }

  // A prepared request is a valid one exactly when its arguments and its workspace fit and the
  // digest is one.
  lemma RenderedValid(n: Naming, place: Place, revision: nat, request: Saved)
    requires |request.heads| == |request.targets|
    ensures var v := RenderRequest(n, place, revision, request);
            ValidRequest(n.hash, v) <==> Accepts(n, place, request) && IsId(RequestId(n.hash, v.fields))
  {
    hide Encode, Get, RequestId, IsBounded, IsId, WellKeyed, RenderRequest, Targets, HeadMap, Strings, HeadFields;
    RenderedFields(n, place, revision, request);
    RenderedId(n, place, revision, request);
    TargetsFit(request.targets);
    HeadsFit(n, request);
    if Distinct(request.targets) {
      RenderedKeyed(n, place, revision, request);
    }
  }

  lemma TargetsFit(targets: seq<string>)
    ensures Targets(Some(Arr(Strings(targets))))
       <==> 1 <= |targets| <= MAX_TARGETS && Distinct(targets) && forall t | t in targets :: IsBounded(t, MAX_ID_BYTES)
  {
    hide IsBounded;
    var items := Strings(targets);
    assert forall i | 0 <= i < |targets| :: items[i] == Str(targets[i]) && items[i] in items && targets[i] in targets;
  }

  lemma HeadsFit(n: Naming, request: Saved)
    requires |request.heads| == |request.targets|
    ensures var heads := Obj(HeadFields(n, request.targets, request.heads));
            HeadMap(Some(heads), Strings(request.targets))
            <==> forall h | h in request.heads :: IsBounded(n.name(h), MAX_ID_BYTES)
  {
    hide IsBounded, Keys, Strings;
    var fields := HeadFields(n, request.targets, request.heads);
    HeadKeys(fields, request.targets);
    HeadsBounded(fields, n, request.heads);
  }

  lemma HeadsBounded(fields: seq<Field>, n: Naming, heads: seq<Id>)
    requires |fields| == |heads| && forall i | 0 <= i < |fields| :: fields[i].value == Str(n.name(heads[i]))
    ensures (forall f | f in fields :: f.value.Str? && IsBounded(f.value.text, MAX_ID_BYTES))
       <==> forall h | h in heads :: IsBounded(n.name(h), MAX_ID_BYTES)
  {
    hide IsBounded;
    if forall f | f in fields :: f.value.Str? && IsBounded(f.value.text, MAX_ID_BYTES) {
      forall h | h in heads ensures IsBounded(n.name(h), MAX_ID_BYTES) {
        var i :| 0 <= i < |heads| && heads[i] == h;
        assert fields[i] in fields;
      }
    }
    if forall h | h in heads :: IsBounded(n.name(h), MAX_ID_BYTES) {
      forall f | f in fields ensures f.value.Str? && IsBounded(f.value.text, MAX_ID_BYTES) {
        var i :| 0 <= i < |fields| && fields[i] == f;
        assert heads[i] in heads;
      }
    }
  }

  lemma HeadKeys(fields: seq<Field>, targets: seq<string>)
    requires |fields| == |targets| && forall i | 0 <= i < |fields| :: fields[i].key == targets[i]
    ensures Keys(fields) == (set t | t in Strings(targets) && t.Str? :: t.text)
  {
    var items := Strings(targets);
    forall key ensures key in Keys(fields) <==> key in targets {
      if key in targets {
        var i :| 0 <= i < |targets| && targets[i] == key;
        assert fields[i] in fields;
      }
    }
    var texts := set t | t in items && t.Str? :: t.text;
    forall key ensures key in texts <==> key in targets {
      if key in targets {
        var i :| 0 <= i < |targets| && targets[i] == key;
        assert items[i] in items;
      }
    }
  }

  // ------------------------------------------------------------------ reading back

  // The request a valid dictionary stands for; ident gives the record a text names.
  function ReadBack(hash: string -> string, ident: string -> Id, v: Json): Saved
    requires ValidRequest(hash, v)
  {
    var f := v.fields;
    var targets := Get(f, "targets").value.items;
    var heads := Get(f, "previous_by_target").value.fields;
    Saved(TextsOf(targets), HeadsOf(heads, TextsOf(targets), ident),
          if Get(f, "action") == Some(Str("clear")) then "" else Get(f, "worker_id").value.text,
          Get(f, "reason").value.text,
          Get(f, "batch_base").value.text)
  }

  function TextsOf(items: seq<Json>): (r: seq<string>)
    requires forall t | t in items :: t.Str?
    ensures |r| == |items| && forall i | 0 <= i < |r| :: items[i] in items && r[i] == items[i].text
  {
    seq(|items|, i requires 0 <= i < |items| => assert items[i] in items; items[i].text)
  }

  function HeadsOf(heads: seq<Field>, targets: seq<string>, ident: string -> Id): (r: seq<Id>)
    ensures |r| == |targets| && forall i | 0 <= i < |r| :: r[i] == HeadIn(heads, targets[i], ident)
  {
    seq(|targets|, i requires 0 <= i < |targets| => HeadIn(heads, targets[i], ident))
  }

  function HeadIn(heads: seq<Field>, target: string, ident: string -> Id): Id {
    match Get(heads, target)
    case Some(Str(head)) => ident(head)
    case _ => NONE
  }

  // The texts of the frozen heads name those heads.
  predicate NamesBack(n: Naming, ident: string -> Id, request: Saved) {
    forall h | h in request.heads :: ident(n.name(h)) == h
  }

  lemma RenderedReads(n: Naming, ident: string -> Id, place: Place, revision: nat, request: Saved)
    requires |request.heads| == |request.targets| && NamesBack(n, ident, request)
    requires ValidRequest(n.hash, RenderRequest(n, place, revision, request))
    ensures ReadBack(n.hash, ident, RenderRequest(n, place, revision, request)) == request
  {
    var v := RenderRequest(n, place, revision, request);
    hide Encode, Get, RequestId, IsBounded, IsId, WellKeyed, Keys, RenderRequest, Targets, HeadMap;
    RenderedValid(n, place, revision, request);
    RenderedFields(n, place, revision, request);
    assert TextsOf(Strings(request.targets)) == request.targets;
    HeadsRead(n, ident, request);
  }

  lemma HeadsRead(n: Naming, ident: string -> Id, request: Saved)
    requires |request.heads| == |request.targets| && Distinct(request.targets) && NamesBack(n, ident, request)
    ensures HeadsOf(HeadFields(n, request.targets, request.heads), request.targets, ident) == request.heads
  {
    hide HeadFields, HeadIn;
    forall i | 0 <= i < |request.targets|
      ensures HeadIn(HeadFields(n, request.targets, request.heads), request.targets[i], ident) == request.heads[i]
    {
      HeadReads(n, ident, request, i);
    }
  }

  lemma HeadReads(n: Naming, ident: string -> Id, request: Saved, i: nat)
    requires |request.heads| == |request.targets| && Distinct(request.targets) && i < |request.heads|
    requires NamesBack(n, ident, request)
    ensures HeadIn(HeadFields(n, request.targets, request.heads), request.targets[i], ident) == request.heads[i]
  {
    var fields := HeadFields(n, request.targets, request.heads);
    hide Get;
    GetAt(fields, i);
    assert request.heads[i] in request.heads;
  }

  // Insertion order does not matter to what is read back.
  lemma ReadBackSame(hash: string -> string, ident: string -> Id, v: Json, w: Json)
    requires ValidRequest(hash, v) && ValidRequest(hash, w) && SameValue(v, w)
    ensures ReadBack(hash, ident, w) == ReadBack(hash, ident, v)
  {
    var xs, ys := v.fields, w.fields;
    hide SameValue, WellKeyed, Get, Bound, Identified, HeadIn, HeadMap, IsBounded, IsText, Action, Keys;
    MembersSame(xs, ys);
    HeadsReadSame(xs, ys, TextsOf(Get(xs, "targets").value.items), ident);
  }

  lemma MembersSame(xs: seq<Field>, ys: seq<Field>)
    requires WellKeyed(Obj(xs)) && WellKeyed(Obj(ys)) && SameValue(Obj(xs), Obj(ys)) && Asks(xs) && Asks(ys)
    ensures Get(xs, "action") == Get(ys, "action") && Get(xs, "worker_id") == Get(ys, "worker_id")
    ensures Get(xs, "reason") == Get(ys, "reason") && Get(xs, "batch_base") == Get(ys, "batch_base")
    ensures Get(xs, "targets") == Get(ys, "targets")
  {
    hide SameValue, WellKeyed, Get, IsBounded, HeadMap;
    ScalarSame(xs, ys, "action");
    ScalarSame(xs, ys, "worker_id");
    ScalarSame(xs, ys, "reason");
    ScalarSame(xs, ys, "batch_base");
    SameMember(xs, ys, "targets");
    TargetsSame(Get(xs, "targets").value, Get(ys, "targets").value);
  }

  lemma HeadsReadSame(xs: seq<Field>, ys: seq<Field>, targets: seq<string>, ident: string -> Id)
    requires WellKeyed(Obj(xs)) && WellKeyed(Obj(ys)) && SameValue(Obj(xs), Obj(ys)) && Asks(xs) && Asks(ys)
    ensures HeadsOf(Get(xs, "previous_by_target").value.fields, targets, ident)
         == HeadsOf(Get(ys, "previous_by_target").value.fields, targets, ident)
  {
    hide SameValue, WellKeyed, Get, IsBounded, Targets, Action, HeadIn, Keys;
    SameMember(xs, ys, "previous_by_target");
    var a, b := Get(xs, "previous_by_target").value, Get(ys, "previous_by_target").value;
    forall i | 0 <= i < |targets| ensures HeadIn(a.fields, targets[i], ident) == HeadIn(b.fields, targets[i], ident) {
      HeadInSame(a, b, targets[i], ident);
    }
  }

  lemma HeadInSame(a: Json, b: Json, target: string, ident: string -> Id)
    requires a.Obj? && b.Obj? && WellKeyed(a) && WellKeyed(b) && SameValue(a, b)
    requires forall f | f in a.fields :: f.value.Str?
    ensures HeadIn(a.fields, target, ident) == HeadIn(b.fields, target, ident)
  {
    SameBack(a, b);
    SameGet(a.fields, b.fields, target);
    SameGet(b.fields, a.fields, target);
    GetField(a.fields, target);
    hide Get;
    if Get(a.fields, target).Some? {
      assert Field(target, Get(a.fields, target).value) in a.fields;
    }
  }

  // ------------------------------------------------------------------ through a file

  predicate InDomain(v: Json, domain: string) {
    v.Obj? && Get(v.fields, "domain_id") == Some(Str(domain))
  }

  // When a prepared request can be saved
  predicate Saves(hash: string -> string, files: map<string, string>, v: Json) {
    && ValidRequest(hash, v) && TextSize(Encode(v)) <= MAX_REQUEST_BYTES
    && (IdOf(v) in files ==> Read(hash, files[IdOf(v)], IdOf(v)).Ok? && files[IdOf(v)] == Encode(v))
  }

  // What preparing gave is a request that can be saved.
  predicate CanSave(n: Naming, place: Place, revision: nat, files: map<string, string>, p: Prepared) {
    && p.Frozen? && |p.request.heads| == |p.request.targets|
    && Saves(n.hash, files, RenderRequest(n, place, revision, p.request))
  }

  lemma RenderedPlace(n: Naming, place: Place, revision: nat, request: Saved)
    requires |request.heads| == |request.targets|
    ensures var v := RenderRequest(n, place, revision, request);
            StoredIn(v, place.path) && InDomain(v, place.domain)
  {
    hide Get, RenderRequest;
    RenderedFields(n, place, revision, request);
  }

  // What a saved request loads as: the same place, the same domain, the same request.
  lemma LoadsAsFrozen(n: Naming, ident: string -> Id, place: Place, revision: nat, request: Saved)
    requires |request.heads| == |request.targets|
    requires ValidRequest(n.hash, RenderRequest(n, place, revision, request))
    requires TextSize(Encode(RenderRequest(n, place, revision, request))) <= MAX_REQUEST_BYTES
    ensures var v := RenderRequest(n, place, revision, request);
            var r := Read(n.hash, Encode(v), IdOf(v));
            && r.Ok? && ValidRequest(n.hash, r.value) && StoredIn(r.value, place.path) && InDomain(r.value, place.domain)
            && (NamesBack(n, ident, request) ==> ReadBack(n.hash, ident, r.value) == request)
  {
    var v := RenderRequest(n, place, revision, request);
    hide ValidRequest, Encode, Canon, SameValue, IdOf, TextSize, WellKeyed, StoredIn, Get;
    hide RenderRequest, ReadBack, NamesBack;
    SavedReads(n.hash, v);
    ValidKeyed(n.hash, v);
    CanonKeyed(v);
    ValidSame(n.hash, v, Canon(v));
    RenderedPlace(n, place, revision, request);
    DomainSame(n.hash, v, Canon(v), place.domain);
    ReadBackSame(n.hash, ident, v, Canon(v));
    if NamesBack(n, ident, request) {
      RenderedReads(n, ident, place, revision, request);
    }
  }

  lemma DomainSame(hash: string -> string, v: Json, w: Json, domain: string)
    requires ValidRequest(hash, v) && ValidRequest(hash, w) && SameValue(v, w) && InDomain(v, domain)
    ensures InDomain(w, domain)
  {
    hide SameValue, WellKeyed, Get, Bound, Asks, Identified;
    ScalarSame(v.fields, w.fields, "domain_id");
  }

  // Heads are frozen in one state, the request is saved, other requests are saved after it, and it
  // is loaded to be resumed: what is loaded is the frozen request, and it is there exactly when the
  // request could be prepared and saved.
  method PrepareThenLoad(
    directory: RequestDirectory, n: Naming, ident: string -> Id, place: Place, s: State, targets: seq<string>,
    worker: string, reason: string, base: string, others: seq<Json>)
    returns (again: Option<Saved>)
    requires directory.hash == n.hash && directory.path == place.path
    requires var p := Prepare(s, targets, worker, reason, base); p.Frozen? ==> NamesBack(n, ident, p.request)
    modifies directory`files
    ensures forall id | id in old(directory.files) :: id in directory.files && directory.files[id] == old(directory.files)[id]
    ensures var p := Prepare(s, targets, worker, reason, base);
            && (again.Some? <==> CanSave(n, place, |s.log|, old(directory.files), p))
            && (again.Some? ==> again.value == p.request && Valid(p.request) && p.request.targets == targets)
  {
    hide ValidRequest, Encode, Read, IdOf, TextSize, StoredIn, RenderRequest, ReadBack, InDomain, Heads;
    var p := Prepare(s, targets, worker, reason, base);
    if !p.Frozen? {
      return None;
    }
    PreparedShape(s, targets, worker, reason, base);
    var request := RenderRequest(n, place, |s.log|, p.request);
    RenderedPlace(n, place, |s.log|, p.request);
    var saved := directory.Save(request);
    if saved.Err? {
      return None;
    }
    LoadsAsFrozen(n, ident, place, |s.log|, p.request);
    RenderedValid(n, place, |s.log|, p.request);
    for i := 0 to |others|
      invariant saved.value in directory.files && directory.files[saved.value] == Encode(request)
      invariant forall id | id in old(directory.files) ::
          id in directory.files && directory.files[id] == old(directory.files)[id]
    {
      var _ := directory.Save(others[i]);
    }
    var loaded := directory.Load(saved.value);
    if loaded.Err? || !InDomain(loaded.value, place.domain) {
      return None;
    }
    return Some(ReadBack(n.hash, ident, loaded.value));
  }

  lemma PreparedShape(s: State, targets: seq<string>, worker: string, reason: string, base: string)
    requires Prepare(s, targets, worker, reason, base).Frozen?
    ensures var request := Prepare(s, targets, worker, reason, base).request;
            && |request.heads| == |request.targets| && request.targets == targets
            && (Distinct(targets) ==> Valid(request))
  {
  }
}
