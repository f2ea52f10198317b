// Which saved requests are valid, said of their texts, their bytes and their eleven members.

module RequestShape {
  import opened Wrappers
  import opened Utf8Proofs
  import opened Json
  import opened JsonProofs
  import opened RequestFiles
  import opened Ledger
  import opened LedgerKeys
  import opened LedgerRequests
  import opened SavedRequests

  // ------------------------------------------------------------------ texts

  // The code points of a text
  function Codes(s: string): (r: seq<int>)
    ensures |r| == |s| && Scalars(r)
  {
    seq(|s|, i requires 0 <= i < |s| => s[i] as int)
  }

  lemma {:induction false} EncodeMore(t: seq<int>, c: int)
    requires Scalars(t) && Scalar(c)
    ensures Scalars(t + [c]) && EncodeText(t + [c]) == EncodeText(t) + EncodeChar(c)
  {
    hide EncodeChar, Scalar;
    if t == [] {
      assert t + [c] == [c] && EncodeText([c][1..]) == [];
    } else {
      assert (t + [c])[1..] == t[1..] + [c];
      assert Scalars(t[1..]);
      EncodeMore(t[1..], c);
      Glue(EncodeChar(t[0]), EncodeText(t[1..]), EncodeChar(c));
    }
  }

  // The size of a text is that of its UTF-8 bytes.
  lemma {:induction false} SizeExactly(s: string)
    ensures TextSize(s) == |EncodeText(Codes(s))|
  {
    hide EncodeChar, Scalar, CharSize;
    if s == [] {
      assert Codes(s) == [];
    } else {
      var n := |s| - 1;
      SizeExactly(s[..n]);
      assert Codes(s) == Codes(s[..n]) + [s[n] as int];
      OneSize(s[n]);
      EncodeMore(Codes(s[..n]), s[n] as int);
    }
  }

  lemma OneSize(c: char)
    ensures Scalar(c as int) && CharSize(c) == |EncodeChar(c as int)|
  {
  }

  // The white space of Unicode
  predicate SpaceCode(n: int) {
    || 0x09 <= n <= 0x0D || 0x1C <= n <= 0x20 || n == 0x85 || n == 0xA0 || n == 0x1680 || 0x2000 <= n <= 0x200A
    || n == 0x2028 || n == 0x2029 || n == 0x202F || n == 0x205F || n == 0x3000
  }

  // A text is accepted when it holds a character that is no white space, and its UTF-8 bytes are
  // within the bound.
  predicate Accepted(s: string, bytes: nat) {
    (exists i :: 0 <= i < |s| && !SpaceCode(s[i] as int)) && |EncodeText(Codes(s))| <= bytes
  }

  lemma AcceptedExactly(s: string, bytes: nat)
    ensures IsBounded(s, bytes) <==> Accepted(s, bytes)
  {
    SizeExactly(s);
    hide TextSize, EncodeText;
    assert forall c: char :: IsSpace(c) <==> SpaceCode(c as int);
    hide IsSpace, SpaceCode;
    if c :| c in s && !IsSpace(c) {
      var i :| 0 <= i < |s| && s[i] == c;
    }
    assert forall i | 0 <= i < |s| :: s[i] in s;
  }

  // A name is accepted when it is 64 digits of lower-case hexadecimal.
  lemma IdExactly(id: string)
    ensures IsId(id) <==> |id| == 64 && forall i | 0 <= i < |id| :: '0' <= id[i] <= '9' || 'a' <= id[i] <= 'f'
  {
    assert forall c: char :: c in HEX <==> '0' <= c <= '9' || 'a' <= c <= 'f';
    assert forall i | 0 <= i < |id| :: id[i] in id;
  }

  // ------------------------------------------------------------------ files

  // A file is read as a request exactly when it is no larger than a mebibyte, is JSON, is a valid
  // request spelled in canonical text, and is named by its id; and otherwise the first of these that
  // fails is what is wrong with it.
  lemma ReadExactly(hash: string -> string, raw: string, id: string)
    ensures var r, v := Read(hash, raw, id), Decode(raw);
            && (r == Err(TooLarge) <==> |EncodeText(Codes(raw))| > 1024 * 1024)
            && (r == Err(Malformed) <==> |EncodeText(Codes(raw))| <= 1024 * 1024 && v == None)
            && (r == Err(Invalid) <==>
                  |EncodeText(Codes(raw))| <= 1024 * 1024 && v.Some? && !ValidRequest(hash, v.value))
            && (r == Err(NotCanonical) <==>
                  && |EncodeText(Codes(raw))| <= 1024 * 1024 && v.Some? && ValidRequest(hash, v.value)
                  && Encode(v.value) != raw)
            && (r == Err(WrongName) <==>
                  && |EncodeText(Codes(raw))| <= 1024 * 1024 && v.Some? && ValidRequest(hash, v.value)
                  && Encode(v.value) == raw && !(Field("request_id", Str(id)) in v.value.fields))
            && (r.Ok? <==>
                  && |EncodeText(Codes(raw))| <= 1024 * 1024 && v.Some? && ValidRequest(hash, v.value)
                  && Encode(v.value) == raw && Field("request_id", Str(id)) in v.value.fields)
            && (r.Ok? ==> v == Some(r.value))
  {
    SizeExactly(raw);
    hide TextSize, EncodeText, Decode, ValidRequest, Encode, IdOf;
    if Decode(raw).Some? && ValidRequest(hash, Decode(raw).value) {
      NamedExactly(hash, Decode(raw).value, id);
    }
  }

  lemma NamedExactly(hash: string -> string, v: Json, id: string)
    requires ValidRequest(hash, v)
    ensures v.Obj? && (IdOf(v) == id <==> Field("request_id", Str(id)) in v.fields)
  {
    GetField(v.fields, "request_id");
    hide Get, Bound, Asks, WellKeyed, RequestId;
  }

  // ------------------------------------------------------------------ prepared requests

  // 1 to 64 targets, no two the same; targets, heads, domain and store are texts of at most 4096
  // bytes, reason, base and worker of at most 65536; and the store is an absolute path.
  predicate Acceptable(n: Naming, place: Place, request: Saved) {
    && 1 <= |request.targets| <= 64
    && (forall i, j | 0 <= i < j < |request.targets| :: request.targets[i] != request.targets[j])
    && (forall t | t in request.targets :: Accepted(t, 4096))
    && (forall h | h in request.heads :: Accepted(n.name(h), 4096))
    && Accepted(request.reason, 65536) && Accepted(request.base, 65536)
    && (request.worker != "" ==> Accepted(request.worker, 65536))
    && place.path != "" && place.path[0] == '/' && Accepted(place.path, 4096) && Accepted(place.domain, 4096)
  }

  // A prepared request is valid exactly when it is so and its digest is one.
  lemma PreparedExactly(n: Naming, place: Place, revision: nat, request: Saved)
    requires |request.heads| == |request.targets|
    ensures var id := n.hash(Encode(Obj(BodyOf(n, place, revision, request))));
            ValidRequest(n.hash, RenderRequest(n, place, revision, request))
            <==> Acceptable(n, place, request)
                 && |id| == 64 && forall i | 0 <= i < |id| :: '0' <= id[i] <= '9' || 'a' <= id[i] <= 'f'
  {
    hide ValidRequest, RenderRequest, Acceptable, Accepts, IsId, Encode, BodyOf, RequestId;
    RenderedValid(n, place, revision, request);
    RenderedDigest(n, place, revision, request);
    AcceptsExactly(n, place, request);
    IdExactly(n.hash(Encode(Obj(BodyOf(n, place, revision, request)))));
  }

  lemma AcceptsExactly(n: Naming, place: Place, request: Saved)
    requires |request.heads| == |request.targets|
    ensures Accepts(n, place, request) <==> Acceptable(n, place, request)
  {
    hide IsBounded, Accepted;
    forall s, bytes ensures IsBounded(s, bytes) <==> Accepted(s, bytes) {
      AcceptedExactly(s, bytes);
    }
  }

  lemma RenderedDigest(n: Naming, place: Place, revision: nat, request: Saved)
    requires |request.heads| == |request.targets|
    ensures RequestId(n.hash, RenderRequest(n, place, revision, request).fields)
         == n.hash(Encode(Obj(BodyOf(n, place, revision, request))))
  {
    hide Encode, BodyOf, DistinctKeys;
    NamesApart(n, place, revision, request);
    var body := BodyOf(n, place, revision, request);
    WithoutLast(body, Field("request_id", Str(n.hash(Encode(Obj(body))))));
  }

  // The members of a prepared request, in the order they are given
  lemma PreparedMembers(n: Naming, place: Place, revision: nat, request: Saved)
    requires |request.heads| == |request.targets|
    ensures var v := RenderRequest(n, place, revision, request);
            var body := [Field("schema", Str("aig-task-reassignment-request-v1")),
                         Field("store_path", Str(place.path)), Field("domain_id", Str(place.domain)),
                         Field("observed_revision", Int(revision)), Field("targets", Arr(Strings(request.targets))),
                         Field("previous_by_target", Obj(HeadFields(n, request.targets, request.heads))),
                         Field("action", Str(if request.worker == "" then "clear" else "set")),
                         Field("worker_id", if request.worker == "" then Null else Str(request.worker)),
                         Field("reason", Str(request.reason)), Field("batch_base", Str(request.base))];
            v == Obj(body + [Field("request_id", Str(n.hash(Encode(Obj(body)))))])
  {
    hide Encode, Strings, HeadFields;
  }

  // ------------------------------------------------------------------ every valid request

  // Ids that are their own texts
  function Plainly(hash: string -> string): Naming {
    Naming(hash, (id: Id) => if id.Text? then id.text else "")
  }

  // The store, domain and revision a valid request names
  function PlaceOf(hash: string -> string, v: Json): Place
    requires ValidRequest(hash, v)
  {
    Place(Get(v.fields, "store_path").value.text, Get(v.fields, "domain_id").value.text)
  }

  function RevisionOf(hash: string -> string, v: Json): nat
    requires ValidRequest(hash, v)
  {
    Get(v.fields, "observed_revision").value.number
  }

  function RequestOf(hash: string -> string, v: Json): (r: Saved)
    requires ValidRequest(hash, v)
    ensures |r.heads| == |r.targets|
  {
    ReadBack(hash, (text: string) => Text(text), v)
  }

  // What a valid dictionary holds under one key, a prepared one may hold too.
  lemma HeldThere(ys: seq<Field>, x: Field)
    requires DistinctKeys(ys) && Get(ys, x.key).Some? && SameValue(x.value, Get(ys, x.key).value)
    ensures HasField(x, ys)
  {
    hide Get, SameValue;
    GetField(ys, x.key);
    var j :| 0 <= j < |ys| && ys[j] == Field(x.key, Get(ys, x.key).value);
  }

  lemma TargetsBack(items: seq<Json>)
    requires forall t | t in items :: t.Str?
    ensures SameValue(Arr(Strings(TextsOf(items))), Arr(items))
  {
    var texts := TextsOf(items);
    forall i | 0 <= i < |items| ensures SameValue(Strings(texts)[i], items[i]) {
      assert items[i] in items;
    }
  }

  // The saved heads, taken out in the order of the targets
  lemma HeadsBack(n: Naming, heads: seq<Field>, targets: seq<string>)
    requires n.name == ((id: Id) => if id.Text? then id.text else "")
    requires DistinctKeys(heads) && Distinct(targets) && Keys(heads) == (set t | t in targets)
    requires forall f | f in heads :: f.value.Str?
    ensures SameValue(Obj(HeadFields(n, targets, HeadsOf(heads, targets, (text: string) => Text(text)))), Obj(heads))
  {
    var ident := (text: string) => Text(text);
    var xs := HeadFields(n, targets, HeadsOf(heads, targets, ident));
    SameCount(heads, targets);
    hide Get;
    forall i | 0 <= i < |xs| ensures HasField(xs[i], heads) {
      GetField(heads, targets[i]);
      assert targets[i] in targets && targets[i] in Keys(heads);
      var value := Get(heads, targets[i]).value;
      assert Field(targets[i], value) in heads && value.Str?;
      HeldThere(heads, xs[i]);
    }
  }

  lemma SameCount(heads: seq<Field>, targets: seq<string>)
    requires DistinctKeys(heads) && Distinct(targets) && Keys(heads) == (set t | t in targets)
    ensures |heads| == |targets|
  {
    KeyCount(heads);
    TextCount(targets);
  }

  lemma {:induction false} KeyCount(heads: seq<Field>)
    requires DistinctKeys(heads)
    ensures |Keys(heads)| == |heads|
  {
    if heads == [] {
      assert Keys(heads) == {};
    } else {
      FirstKeyOnce(heads);
      KeyCount(heads[1..]);
      assert heads == [heads[0]] + heads[1..];
      assert Keys(heads) == {heads[0].key} + Keys(heads[1..]);
    }
  }

  lemma {:induction false} TextCount(targets: seq<string>)
    requires Distinct(targets)
    ensures |set t | t in targets| == |targets|
  {
    if targets == [] {
      assert (set t | t in targets) == {};
    } else {
      var n := |targets| - 1;
      TextCount(targets[..n]);
      assert targets == targets[..n] + [targets[n]];
      assert (set t | t in targets) == (set t | t in targets[..n]) + {targets[n]};
    }
  }

  // The ten members other than the id
  lemma BodyHeld(hash: string -> string, v: Json)
    requires ValidRequest(hash, v)
    ensures var body := BodyOf(Plainly(hash), PlaceOf(hash, v), RevisionOf(hash, v), RequestOf(hash, v));
            forall i | 0 <= i < |body| :: HasField(body[i], v.fields)
  {
    var f, request := v.fields, RequestOf(hash, v);
    var body := BodyOf(Plainly(hash), PlaceOf(hash, v), RevisionOf(hash, v), request);
    MembersRead(hash, v);
    KeyedOnce(hash, v);
    PreviousBack(hash, v);
    TargetsBack(Get(f, "targets").value.items);
    WorkerRead(hash, v);
    hide ValidRequest, ReadBack, Get, HasField, HeadFields, Strings, TextsOf, SameValue;
    BodyFits(Plainly(hash), PlaceOf(hash, v), RevisionOf(hash, v), request, f);
    forall i | 0 <= i < |body| ensures HasField(body[i], f) {
      HeldThere(f, body[i]);
    }
  }

  lemma WorkerRead(hash: string -> string, v: Json)
    requires ValidRequest(hash, v)
    ensures var r, f := RequestOf(hash, v), v.fields;
            && Get(f, "action") == Some(Str(if r.worker == "" then "clear" else "set"))
            && Get(f, "worker_id") == Some(if r.worker == "" then Null else Str(r.worker))
  {
    WorkerGiven(v.fields);
    MembersRead(hash, v);
    hide Get, ReadBack, IsBounded, WellKeyed, Identified, Bound, Targets, HeadMap;
  }

  // The body of a prepared request, member by member, against a dictionary
  lemma BodyFits(n: Naming, place: Place, revision: nat, request: Saved, f: seq<Field>)
    requires |request.heads| == |request.targets|
    requires Get(f, "schema") == Some(Str(REQUEST_SCHEMA))
    requires Get(f, "store_path") == Some(Str(place.path)) && Get(f, "domain_id") == Some(Str(place.domain))
    requires Get(f, "observed_revision") == Some(Int(revision))
    requires Get(f, "targets").Some? && SameValue(Arr(Strings(request.targets)), Get(f, "targets").value)
    requires Get(f, "previous_by_target").Some?
             && SameValue(Obj(HeadFields(n, request.targets, request.heads)), Get(f, "previous_by_target").value)
    requires Get(f, "action") == Some(Str(if request.worker == "" then "clear" else "set"))
    requires Get(f, "worker_id") == Some(if request.worker == "" then Null else Str(request.worker))
    requires Get(f, "reason") == Some(Str(request.reason)) && Get(f, "batch_base") == Some(Str(request.base))
    ensures var body := BodyOf(n, place, revision, request);
            forall i | 0 <= i < |body| ::
              Get(f, body[i].key).Some? && SameValue(body[i].value, Get(f, body[i].key).value)
  {
    ScalarsSame(place.path, revision);
    ScalarsSame(place.domain, revision);
    ScalarsSame(request.worker, revision);
    ScalarsSame(request.reason, revision);
    ScalarsSame(request.base, revision);
    ScalarsSame(REQUEST_SCHEMA, revision);
    ScalarsSame("clear", revision);
    ScalarsSame("set", revision);
    hide Get, HeadFields, Strings, SameValue;
  }

  lemma ScalarsSame(text: string, number: int)
    ensures SameValue(Str(text), Str(text)) && SameValue(Int(number), Int(number)) && SameValue(Null, Null)
  {
  }

  lemma KeyedOnce(hash: string -> string, v: Json)
    requires ValidRequest(hash, v)
    ensures DistinctKeys(v.fields)
  {
  }

  lemma WorkerGiven(f: seq<Field>)
    requires Action(Get(f, "action"), Get(f, "worker_id"))
    ensures Get(f, "action") == Some(Str("clear")) ==> Get(f, "worker_id") == Some(Null)
    ensures Get(f, "action") != Some(Str("clear")) ==>
              Get(f, "action") == Some(Str("set")) && Get(f, "worker_id").Some? && Get(f, "worker_id").value.Str?
              && Get(f, "worker_id").value.text != ""
  {
    hide Get, TextSize;
  }

  lemma PreviousBack(hash: string -> string, v: Json)
    requires ValidRequest(hash, v)
    ensures Get(v.fields, "previous_by_target").Some?
    ensures var request := RequestOf(hash, v);
            SameValue(Obj(HeadFields(Plainly(hash), request.targets, request.heads)), Get(v.fields, "previous_by_target").value)
  {
    var f := v.fields;
    var items, heads := Get(f, "targets").value.items, Get(f, "previous_by_target").value.fields;
    GetWellKeyed(f, "previous_by_target");
    hide Get, IsBounded, HeadFields, HeadsOf, SameValue;
    var targets := TextsOf(items);
    forall t ensures t in (set x | x in items && x.Str? :: x.text) <==> t in targets {
      if t in targets {
        var i :| 0 <= i < |targets| && targets[i] == t;
        assert items[i] in items;
      }
      if x :| x in items && x.Str? && x.text == t {
        var i :| 0 <= i < |items| && items[i] == x;
        assert targets[i] == t;
      }
    }
    assert Keys(heads) == (set t | t in targets);
    HeadsBack(Plainly(hash), heads, targets);
  }

  // What is read back, member by member
  lemma MembersRead(hash: string -> string, v: Json)
    requires ValidRequest(hash, v)
    ensures var f, r, p := v.fields, RequestOf(hash, v), PlaceOf(hash, v);
            && Get(f, "schema") == Some(Str(REQUEST_SCHEMA))
            && Get(f, "store_path") == Some(Str(p.path)) && Get(f, "domain_id") == Some(Str(p.domain))
            && Get(f, "observed_revision") == Some(Int(RevisionOf(hash, v)))
            && Get(f, "targets").Some? && Get(f, "targets").value.Arr?
            && (forall t | t in Get(f, "targets").value.items :: t.Str?)
            && r.targets == TextsOf(Get(f, "targets").value.items)
            && Get(f, "reason") == Some(Str(r.reason)) && Get(f, "batch_base") == Some(Str(r.base))
            && Get(f, "action").Some? && Get(f, "worker_id").Some?
            && (Get(f, "action") == Some(Str("clear")) ==> r.worker == "")
            && (Get(f, "action") != Some(Str("clear")) ==>
                  Get(f, "worker_id").value.Str? && r.worker == Get(f, "worker_id").value.text)
  {
    hide Get, IsBounded, TextsOf, HeadsOf, Keys, WellKeyed, IsId, RequestId;
  }

  // Every valid dictionary is a prepared request, insertion order aside: eleven members, no other.
  lemma ValidPrepared(hash: string -> string, v: Json)
    requires ValidRequest(hash, v)
    ensures SameValue(RenderRequest(Plainly(hash), PlaceOf(hash, v), RevisionOf(hash, v), RequestOf(hash, v)), v)
  {
    var n, place, revision, request := Plainly(hash), PlaceOf(hash, v), RevisionOf(hash, v), RequestOf(hash, v);
    var body := BodyOf(n, place, revision, request);
    BodyHeld(hash, v);
    BodySame(hash, v);
    IdHeld(hash, v);
    hide ValidRequest, ReadBack, BodyOf, HasField, SameValue, Encode, Without, Get;
    AllHeld(body, Field("request_id", Str(hash(Encode(Obj(body))))), v.fields);
  }

  lemma AllHeld(body: seq<Field>, last: Field, ys: seq<Field>)
    requires |ys| == |body| + 1 && HasField(last, ys) && forall i | 0 <= i < |body| :: HasField(body[i], ys)
    ensures SameValue(Obj(body + [last]), Obj(ys))
  {
    hide HasField, SameValue;
    forall x | x in body + [last] ensures HasField(x, ys) {
      if x in body {
        var i :| 0 <= i < |body| && body[i] == x;
      }
    }
    SameFields(body + [last], ys);
  }

  // The body has one digest with the dictionary without its id.
  lemma BodySame(hash: string -> string, v: Json)
    requires ValidRequest(hash, v)
    ensures var body := BodyOf(Plainly(hash), PlaceOf(hash, v), RevisionOf(hash, v), RequestOf(hash, v));
            |body| == 10 && |v.fields| == 11 && Encode(Obj(body)) == Encode(Obj(Without(v.fields, "request_id")))
  {
    var n, place, revision, request := Plainly(hash), PlaceOf(hash, v), RevisionOf(hash, v), RequestOf(hash, v);
    var body, ys := BodyOf(n, place, revision, request), v.fields;
    BodyHeld(hash, v);
    DistinctTargets(hash, v);
    ValidSizes(hash, v);
    BodyNames(n, place, revision, request);
    hide ValidRequest, RenderRequest, ReadBack, Encode, Get, SameValue, Without, WellKeyed, HasField, BodyOf;
    BodyKeyed(n, place, revision, request);
    WithoutKeyed(ys, "request_id");
    RestHeld(body, ys);
    CanonicalText(Obj(body), Obj(Without(ys, "request_id")));
  }

  // Ten of eleven members
  lemma RestHeld(body: seq<Field>, ys: seq<Field>)
    requires |body| == 10 && |ys| == 11 && DistinctKeys(ys) && "request_id" in Keys(ys)
    requires forall i | 0 <= i < |body| :: body[i].key != "request_id" && HasField(body[i], ys)
    ensures SameValue(Obj(body), Obj(Without(ys, "request_id")))
  {
    hide Without, HasField, Keys, DistinctKeys, SameValue;
    WithoutField(ys, "request_id");
    var rest := Without(ys, "request_id");
    forall x | x in body ensures HasField(x, rest) {
      var i :| 0 <= i < |body| && body[i] == x;
      FieldMoves(x, ys, rest);
    }
    SameFields(body, rest);
  }

  lemma BodyKeyed(n: Naming, place: Place, revision: nat, request: Saved)
    requires |request.heads| == |request.targets| && Distinct(request.targets)
    ensures WellKeyed(Obj(BodyOf(n, place, revision, request)))
  {
    var body := BodyOf(n, place, revision, request);
    var last := Field("request_id", Str(n.hash(Encode(Obj(body)))));
    assert RenderRequest(n, place, revision, request) == Obj(body + [last]);
    hide BodyOf, RenderRequest, Encode, WellKeyed, Without;
    RenderedKeyed(n, place, revision, request);
    NamesApart(n, place, revision, request);
    WithoutLast(body, last);
    WithoutKeyed(body + [last], "request_id");
  }

  lemma BodyNames(n: Naming, place: Place, revision: nat, request: Saved)
    requires |request.heads| == |request.targets|
    ensures var body := BodyOf(n, place, revision, request);
            |body| == 10 && forall i | 0 <= i < |body| :: body[i].key != "request_id"
  {
    hide HeadFields, Strings;
  }

  lemma DistinctTargets(hash: string -> string, v: Json)
    requires ValidRequest(hash, v)
    ensures Distinct(RequestOf(hash, v).targets)
  {
    var items := Get(v.fields, "targets").value.items;
    hide Get, IsBounded;
    assert forall i | 0 <= i < |items| :: items[i] in items && items[i] == Str(TextsOf(items)[i]);
  }

  lemma ValidSizes(hash: string -> string, v: Json)
    requires ValidRequest(hash, v)
    ensures |v.fields| == 11 && WellKeyed(v) && DistinctKeys(v.fields) && "request_id" in Keys(v.fields)
  {
    GetField(v.fields, "request_id");
    hide Get, Asks, Bound;
  }

  lemma IdHeld(hash: string -> string, v: Json)
    requires ValidRequest(hash, v)
    ensures HasField(Field("request_id", Str(hash(Encode(Obj(Without(v.fields, "request_id")))))), v.fields)
  {
    ValidSizes(hash, v);
    hide Get, Asks, Bound, Encode, Without, WellKeyed, HasField, IsId;
    HeldThere(v.fields, Field("request_id", Str(hash(Encode(Obj(Without(v.fields, "request_id")))))));
  }
}
