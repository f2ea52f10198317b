// Saved request files: canonical JSON named by the digest of its own body, written once.

module RequestFiles {
  import opened Wrappers
  import opened Json
  import opened JsonProofs
  import Sorting

  // ------------------------------------------------------------------ dictionaries

  // The fields as a dictionary; as json.loads has it, the last of several equal keys wins.
  function Members(fields: seq<Field>): map<string, Json> {
    if fields == [] then map[]
    else
      var n := |fields| - 1;
      Members(fields[..n])[fields[n].key := fields[n].value]
  }

  function Get(fields: seq<Field>, key: string): Option<Json> {
    var members := Members(fields);
    if key in members then Some(members[key]) else None
  }

  function Without(fields: seq<Field>, key: string): seq<Field> {
    if fields == [] then []
    else if fields[0].key == key then Without(fields[1..], key)
    else [fields[0]] + Without(fields[1..], key)
  }

  function Keys(fields: seq<Field>): set<string> {
    set f | f in fields :: f.key
  }

  // ------------------------------------------------------------------ requests

  // schema, store_path, domain_id, observed_revision, targets, previous_by_target, action,
  // worker_id, reason, batch_base, request_id
  const REQUEST_FIELDS := 11

  const REQUEST_SCHEMA := "aig-task-reassignment-request-v1"
  const MAX_TARGETS := 64

  const MAX_TEXT_BYTES := 65536
  const MAX_ID_BYTES := 4096
  const MAX_REQUEST_BYTES := 1048576

  // The bytes of a text in UTF-8
  function TextSize(s: string): nat {
    if s == [] then 0 else TextSize(s[..|s| - 1]) + CharSize(s[|s| - 1])
  }

  function CharSize(c: char): nat {
    if c as int < 0x80 then 1 else if c as int < 0x800 then 2 else if c as int < 0x10000 then 3 else 4
  }

  // str.isspace for one character
  predicate IsSpace(c: char) {
    var n := c as int;
    9 <= n <= 13 || 28 <= n <= 32 || n in {0x85, 0xA0, 0x1680, 0x2028, 0x2029, 0x202F, 0x205F, 0x3000}
    || 0x2000 <= n <= 0x200A
  }

  // _text
  predicate IsBounded(s: string, maximum: nat) {
    (exists c :: c in s && !IsSpace(c)) && TextSize(s) <= maximum
  }

  predicate IsText(v: Option<Json>, maximum: nat) {
    v.Some? && v.value.Str? && IsBounded(v.value.text, maximum)
  }

  predicate IsAbsolute(v: Option<Json>) {
    v.Some? && v.value.Str? && v.value.text != "" && v.value.text[0] == '/'
  }

  // A SHA-256 digest in lower-case hexadecimal
  predicate IsId(id: string) {
    |id| == 64 && forall c | c in id :: c in HEX
  }

  predicate Targets(v: Option<Json>) {
    && v.Some? && v.value.Arr? && 1 <= |v.value.items| <= MAX_TARGETS
    && (forall t | t in v.value.items :: t.Str? && IsBounded(t.text, MAX_ID_BYTES))
    && Distinct(v.value.items)
  }

  // Every target has one saved head and nothing else does.
  predicate HeadMap(v: Option<Json>, targets: seq<Json>) {
    && v.Some? && v.value.Obj?
    && Keys(v.value.fields) == (set t | t in targets && t.Str? :: t.text)
    && forall f | f in v.value.fields :: f.value.Str? && IsBounded(f.value.text, MAX_ID_BYTES)
  }

  predicate Action(action: Option<Json>, worker: Option<Json>) {
    || (action == Some(Str("clear")) && worker == Some(Null))
    || (action == Some(Str("set")) && IsText(worker, MAX_TEXT_BYTES))
  }

  // _request_digest over _request_body
  function RequestId(hash: string -> string, fields: seq<Field>): string {
    hash(Encode(Obj(Without(fields, "request_id"))))
  }

  // What the request is bound to
  predicate Bound(fields: seq<Field>) {
    && Get(fields, "schema") == Some(Str(REQUEST_SCHEMA))
    && IsAbsolute(Get(fields, "store_path")) && IsText(Get(fields, "store_path"), MAX_ID_BYTES)
    && IsText(Get(fields, "domain_id"), MAX_ID_BYTES)
    && var revision := Get(fields, "observed_revision");
       revision.Some? && revision.value.Int? && revision.value.number >= 0
  }

  // What it asks for
  predicate Asks(fields: seq<Field>) {
    && Targets(Get(fields, "targets"))
    && HeadMap(Get(fields, "previous_by_target"), Get(fields, "targets").value.items)
    && Action(Get(fields, "action"), Get(fields, "worker_id"))
    && IsText(Get(fields, "reason"), MAX_TEXT_BYTES) && IsText(Get(fields, "batch_base"), MAX_TEXT_BYTES)
  }

  predicate Identified(hash: string -> string, fields: seq<Field>) {
    IsId(RequestId(hash, fields)) && Get(fields, "request_id") == Some(Str(RequestId(hash, fields)))
  }

  // _validate_request. A JSON object read by Python is a dictionary, so no key comes twice; every
  // field is asked for, so their number says that there is no other.
  predicate ValidRequest(hash: string -> string, v: Json) {
    && v.Obj? && WellKeyed(v) && |v.fields| == REQUEST_FIELDS
    && Bound(v.fields) && Asks(v.fields) && Identified(hash, v.fields)
  }

  function IdOf(v: Json): string {
    if v.Obj? then
      match Get(v.fields, "request_id")
      case Some(Str(id)) => id
      case _ => ""
    else ""
  }

  predicate StoredIn(v: Json, path: string) {
    v.Obj? && Get(v.fields, "store_path") == Some(Str(path))
  }

  // ------------------------------------------------------------------ files

  datatype Problem = NotFound | TooLarge | Malformed | Invalid | NotCanonical | WrongName | Occupied | Mismatch

  // _read_request_file: what a file must be for its name
  function Read(hash: string -> string, raw: string, id: string): Result<Json, Problem> {
    if TextSize(raw) > MAX_REQUEST_BYTES then Err(TooLarge)
    else match Decode(raw)
    case None => Err(Malformed)
    case Some(v) =>
      if !ValidRequest(hash, v) then Err(Invalid)
      else if Encode(v) != raw then Err(NotCanonical)
      else if IdOf(v) != id then Err(WrongName)
      else Ok(v)
  }

  class RequestDirectory {
    const hash: string -> string
    const path: string
    var files: map<string, string>

    constructor (hash: string -> string, path: string)
      ensures this.hash == hash && this.path == path && files == map[]
    {
      this.hash, this.path, files := hash, path, map[];
    }

    // save_assignment_request
    method Save(request: Json) returns (r: Result<string, Problem>)
      modifies this`files
      ensures forall id | id in old(files) :: id in files && files[id] == old(files)[id]
      ensures r.Ok? ==> ValidRequest(hash, request) && r.value == IdOf(request)
                             && files == old(files)[r.value := Encode(request)]
      ensures r.Err? ==> files == old(files)
      ensures r.Ok? <==> ValidRequest(hash, request) && StoredIn(request, path)
                              && TextSize(Encode(request)) <= MAX_REQUEST_BYTES
                              && (IdOf(request) in old(files) ==>
                                    Read(hash, old(files)[IdOf(request)], IdOf(request)).Ok?
                                    && old(files)[IdOf(request)] == Encode(request))
      ensures r == Err(Mismatch) <==> ValidRequest(hash, request) && !StoredIn(request, path)
      ensures r == Err(Occupied) <==>
                ValidRequest(hash, request) && StoredIn(request, path) && TextSize(Encode(request)) <= MAX_REQUEST_BYTES
                && IdOf(request) in old(files) && Read(hash, old(files)[IdOf(request)], IdOf(request)).Ok?
                && old(files)[IdOf(request)] != Encode(request)
    {
      hide ValidRequest, StoredIn, Read, Encode, IdOf, TextSize;
      if !ValidRequest(hash, request) {
        return Err(Invalid);
      }
      if !StoredIn(request, path) {
        return Err(Mismatch);
      }
      var payload, id := Encode(request), IdOf(request);
      if TextSize(payload) > MAX_REQUEST_BYTES {
        return Err(TooLarge);
      }
      if id in files {
        ReadsItsId(hash, id);
        var existing := Read(hash, files[id], id);
        if existing.Err? {
          return Err(existing.error);
        }
        if files[id] != payload {
          return Err(Occupied);
        }
        return Ok(id);
      }
      files := files[id := payload];
      return Ok(id);
    }

    // load_assignment_request
    method Load(id: string) returns (r: Result<Json, Problem>)
      ensures r.Ok? ==> id in files && Read(hash, files[id], id) == r && StoredIn(r.value, path)
      ensures r.Ok? <==> id in files && Read(hash, files[id], id).Ok? && StoredIn(Read(hash, files[id], id).value, path)
      ensures r == Err(NotFound) <==> IsId(id) && id !in files
      ensures r == Err(Mismatch) <==>
                id in files && Read(hash, files[id], id).Ok? && !StoredIn(Read(hash, files[id], id).value, path)
    {
      hide ValidRequest, StoredIn, Encode, Decode, TextSize;
      ReadsItsId(hash, id);
      if !IsId(id) {
        return Err(Invalid);
      }
      if id !in files {
        return Err(NotFound);
      }
      r := Read(hash, files[id], id);
      if r.Ok? && !StoredIn(r.value, path) {
        return Err(Mismatch);
      }
    }
  }

  // Only a digest names a request, so asking for anything else could not have found one.
  lemma ReadsItsId(hash: string -> string, id: string)
    ensures forall raw :: Read(hash, raw, id).Ok? ==> IsId(id)
    ensures forall raw :: Read(hash, raw, id).Err? ==> Read(hash, raw, id).error !in {NotFound, Occupied, Mismatch}
  {
    hide Encode, Decode, TextSize, Bound, Asks, WellKeyed, Get, RequestId;
  }

  // ------------------------------------------------------------------ insertion order is nothing

  lemma {:induction false} GetField(fields: seq<Field>, key: string)
    requires DistinctKeys(fields)
    ensures Get(fields, key).Some? <==> key in Keys(fields)
    ensures Get(fields, key).Some? ==> Field(key, Get(fields, key).value) in fields
    ensures forall f | f in fields && f.key == key :: Get(fields, key) == Some(f.value)
  {
    if fields != [] {
      var front, last := fields[..|fields| - 1], fields[|fields| - 1];
      GetField(front, key);
      assert fields == front + [last];
      if last.key == key {
        assert forall f | f in front :: f.key != key;
      }
    }
  }

  lemma {:induction false} WithoutMembers(fields: seq<Field>, key: string)
    ensures forall f :: f in Without(fields, key) <==> f in fields && f.key != key
  {
    if fields != [] {
      assert fields == [fields[0]] + fields[1..];
      WithoutMembers(fields[1..], key);
    }
  }

  lemma {:induction false} WithoutDistinct(fields: seq<Field>, key: string)
    requires DistinctKeys(fields)
    ensures DistinctKeys(Without(fields, key))
  {
    if fields != [] {
      var rest := fields[1..];
      WithoutDistinct(rest, key);
      WithoutMembers(rest, key);
      FirstKeyOnce(fields);
    }
  }

  lemma FirstKeyOnce(fields: seq<Field>)
    requires DistinctKeys(fields) && fields != []
    ensures DistinctKeys(fields[1..]) && forall f | f in fields[1..] :: f.key != fields[0].key
  {
  }

  lemma {:induction false} WithoutNothing(fields: seq<Field>, key: string)
    requires forall f | f in fields :: f.key != key
    ensures Without(fields, key) == fields
  {
    if fields != [] {
      assert fields == [fields[0]] + fields[1..];
      WithoutNothing(fields[1..], key);
    }
  }

  lemma {:induction false} WithoutCount(fields: seq<Field>, key: string)
    requires DistinctKeys(fields)
    ensures |Without(fields, key)| == |fields| - if key in Keys(fields) then 1 else 0
  {
    if fields != [] {
      FirstKeyOnce(fields);
      assert fields == [fields[0]] + fields[1..];
      hide DistinctKeys;
      if fields[0].key == key {
        WithoutNothing(fields[1..], key);
      } else {
        WithoutCount(fields[1..], key);
      }
    }
  }

  lemma WithoutField(fields: seq<Field>, key: string)
    requires DistinctKeys(fields)
    ensures DistinctKeys(Without(fields, key))
    ensures forall f :: f in Without(fields, key) <==> f in fields && f.key != key
    ensures |Without(fields, key)| == |fields| - if key in Keys(fields) then 1 else 0
  {
    hide Without, DistinctKeys, Keys;
    WithoutDistinct(fields, key);
    WithoutMembers(fields, key);
    WithoutCount(fields, key);
  }

  lemma SameGet(xs: seq<Field>, ys: seq<Field>, key: string)
    requires DistinctKeys(xs) && DistinctKeys(ys) && SameValue(Obj(xs), Obj(ys))
    ensures Get(xs, key).Some? ==> Get(ys, key).Some? && SameValue(Get(xs, key).value, Get(ys, key).value)
  {
    GetField(xs, key);
    GetField(ys, key);
    if Get(xs, key).Some? {
      var i :| 0 <= i < |xs| && xs[i] == Field(key, Get(xs, key).value);
      assert HasField(xs[i], ys);
      var j :| 0 <= j < |ys| && ys[j].key == key && SameValue(xs[i].value, ys[j].value);
    }
  }

  lemma SameBack(a: Json, b: Json)
    requires WellKeyed(a) && WellKeyed(b) && SameValue(a, b)
    ensures SameValue(b, a)
  {
    SameCanon(a, b);
    SameCanon(b, a);
  }

  lemma SameKeys(xs: seq<Field>, ys: seq<Field>)
    requires WellKeyed(Obj(xs)) && WellKeyed(Obj(ys)) && SameValue(Obj(xs), Obj(ys))
    ensures Keys(xs) == Keys(ys)
  {
    SameBack(Obj(xs), Obj(ys));
    KeysWithin(xs, ys);
    KeysWithin(ys, xs);
  }

  lemma KeysWithin(xs: seq<Field>, ys: seq<Field>)
    requires SameValue(Obj(xs), Obj(ys))
    ensures Keys(xs) <= Keys(ys)
  {
    forall key | key in Keys(xs) ensures key in Keys(ys) {
      var i :| 0 <= i < |xs| && xs[i].key == key;
      assert HasField(xs[i], ys);
    }
  }

  lemma SameWithout(xs: seq<Field>, ys: seq<Field>, key: string)
    requires WellKeyed(Obj(xs)) && WellKeyed(Obj(ys)) && SameValue(Obj(xs), Obj(ys))
    ensures WellKeyed(Obj(Without(xs, key))) && WellKeyed(Obj(Without(ys, key)))
    ensures SameValue(Obj(Without(xs, key)), Obj(Without(ys, key)))
  {
    hide Without, WellKeyed, SameValue, HasField;
    WithoutKeyed(xs, key);
    WithoutKeyed(ys, key);
    SameFewer(xs, ys, key);
    WithoutMembers(xs, key);
    WithoutMembers(ys, key);
    forall x | x in Without(xs, key) ensures HasField(x, Without(ys, key)) {
      FieldOf(xs, ys, x);
      FieldMoves(x, ys, Without(ys, key));
    }
    SameFields(Without(xs, key), Without(ys, key));
  }

  lemma SameFewer(xs: seq<Field>, ys: seq<Field>, key: string)
    requires WellKeyed(Obj(xs)) && WellKeyed(Obj(ys)) && SameValue(Obj(xs), Obj(ys))
    ensures |Without(xs, key)| == |Without(ys, key)|
  {
    hide Without;
    SameKeys(xs, ys);
    WithoutCount(xs, key);
    WithoutCount(ys, key);
  }

  lemma SameFields(xs: seq<Field>, ys: seq<Field>)
    requires |xs| == |ys| && forall x | x in xs :: HasField(x, ys)
    ensures SameValue(Obj(xs), Obj(ys))
  {
    hide HasField;
    assert forall i | 0 <= i < |xs| :: xs[i] in xs;
  }

  lemma FieldOf(xs: seq<Field>, ys: seq<Field>, x: Field)
    requires SameValue(Obj(xs), Obj(ys)) && x in xs
    ensures HasField(x, ys)
  {
    var i :| 0 <= i < |xs| && xs[i] == x;
    assert HasField(xs[i], ys);
  }

  lemma FieldMoves(x: Field, ys: seq<Field>, zs: seq<Field>)
    requires HasField(x, ys) && forall f | f in ys && f.key == x.key :: f in zs
    ensures HasField(x, zs)
  {
    var j :| 0 <= j < |ys| && ys[j].key == x.key && SameValue(x.value, ys[j].value);
    assert ys[j] in ys;
    var k :| 0 <= k < |zs| && zs[k] == ys[j];
  }

  // Requests that are the same dictionary are valid together, under the same id and path.
  lemma ValidSame(hash: string -> string, v: Json, w: Json)
    requires ValidRequest(hash, v) && WellKeyed(w) && SameValue(v, w)
    ensures ValidRequest(hash, w) && IdOf(w) == IdOf(v) && forall path :: StoredIn(w, path) <==> StoredIn(v, path)
  {
    hide WellKeyed, Get, Encode, Without, Keys, Bound, Asks, RequestId, IsId;
    assert w.Obj? && |w.fields| == |v.fields|;
    var xs, ys := v.fields, w.fields;
    hide SameValue;
    BoundSame(xs, ys);
    AsksSame(xs, ys);
    IdSame(hash, xs, ys);
    ScalarSame(xs, ys, "request_id");
  }

  lemma BoundSame(xs: seq<Field>, ys: seq<Field>)
    requires WellKeyed(Obj(xs)) && WellKeyed(Obj(ys)) && SameValue(Obj(xs), Obj(ys)) && Bound(xs)
    ensures Bound(ys) && Get(ys, "store_path") == Get(xs, "store_path")
  {
    hide SameValue, WellKeyed, Get, IsBounded;
    ScalarSame(xs, ys, "schema");
    ScalarSame(xs, ys, "store_path");
    ScalarSame(xs, ys, "domain_id");
    ScalarSame(xs, ys, "observed_revision");
  }

  lemma AsksSame(xs: seq<Field>, ys: seq<Field>)
    requires WellKeyed(Obj(xs)) && WellKeyed(Obj(ys)) && SameValue(Obj(xs), Obj(ys)) && Asks(xs)
    ensures Asks(ys)
  {
    hide SameValue, WellKeyed, Get, Keys, IsBounded;
    ScalarSame(xs, ys, "action");
    ScalarSame(xs, ys, "worker_id");
    ScalarSame(xs, ys, "reason");
    ScalarSame(xs, ys, "batch_base");
    SameMember(xs, ys, "targets");
    TargetsSame(Get(xs, "targets").value, Get(ys, "targets").value);
    SameMember(xs, ys, "previous_by_target");
    HeadsSame(Get(xs, "previous_by_target").value, Get(ys, "previous_by_target").value);
  }

  lemma IdSame(hash: string -> string, xs: seq<Field>, ys: seq<Field>)
    requires WellKeyed(Obj(xs)) && WellKeyed(Obj(ys)) && SameValue(Obj(xs), Obj(ys))
    ensures RequestId(hash, xs) == RequestId(hash, ys)
  {
    hide SameValue, WellKeyed, Encode, Without;
    SameWithout(xs, ys, "request_id");
    CanonicalText(Obj(Without(xs, "request_id")), Obj(Without(ys, "request_id")));
  }

  lemma SameMember(xs: seq<Field>, ys: seq<Field>, key: string)
    requires WellKeyed(Obj(xs)) && WellKeyed(Obj(ys)) && SameValue(Obj(xs), Obj(ys)) && Get(xs, key).Some?
    ensures Get(ys, key).Some? && SameValue(Get(xs, key).value, Get(ys, key).value)
    ensures WellKeyed(Get(xs, key).value) && WellKeyed(Get(ys, key).value)
  {
    SameGet(xs, ys, key);
    GetWellKeyed(xs, key);
    GetWellKeyed(ys, key);
  }

  lemma ScalarSame(xs: seq<Field>, ys: seq<Field>, key: string)
    requires WellKeyed(Obj(xs)) && WellKeyed(Obj(ys)) && SameValue(Obj(xs), Obj(ys))
    requires Get(xs, key).Some? && !Get(xs, key).value.Arr? && !Get(xs, key).value.Obj?
    ensures Get(ys, key) == Get(xs, key)
  {
    SameGet(xs, ys, key);
  }

  lemma GetWellKeyed(fields: seq<Field>, key: string)
    requires WellKeyed(Obj(fields)) && Get(fields, key).Some?
    ensures WellKeyed(Get(fields, key).value)
  {
    GetField(fields, key);
  }

  lemma TargetsSame(a: Json, b: Json)
    requires Targets(Some(a)) && SameValue(a, b)
    ensures a == b
  {
    forall i | 0 <= i < |a.items| ensures a.items[i] == b.items[i] {
      assert a.items[i] in a.items && SameValue(a.items[i], b.items[i]);
    }
  }

  lemma HeadsSame(a: Json, b: Json)
    requires a.Obj? && WellKeyed(a) && WellKeyed(b) && SameValue(a, b)
    requires forall f | f in a.fields :: f.value.Str? && IsBounded(f.value.text, MAX_ID_BYTES)
    ensures b.Obj? && Keys(a.fields) == Keys(b.fields)
    ensures forall f | f in b.fields :: f.value.Str? && IsBounded(f.value.text, MAX_ID_BYTES)
  {
    hide IsBounded;
    SameKeys(a.fields, b.fields);
    SameBack(a, b);
    forall f | f in b.fields ensures f.value.Str? && IsBounded(f.value.text, MAX_ID_BYTES) {
      var i :| 0 <= i < |b.fields| && b.fields[i] == f;
      assert HasField(b.fields[i], a.fields);
      var j :| 0 <= j < |a.fields| && a.fields[j].key == f.key && SameValue(f.value, a.fields[j].value);
      assert a.fields[j] in a.fields;
    }
  }

  // ------------------------------------------------------------------ files keep requests

  lemma CanonKeyed(v: Json)
    requires WellKeyed(v)
    ensures WellKeyed(Canon(v))
    decreases v
  {
    match v
    case Arr(items) =>
      forall i | 0 <= i < |items| ensures WellKeyed(CanonItems(items)[i]) {
        CanonKeyed(items[i]);
      }
    case Obj(fields) =>
      var ordered := CanonFields(fields);
      forall i | 0 <= i < |fields| ensures WellKeyed(ordered[i].value) {
        CanonKeyed(fields[i].value);
      }
      PermutedKeys(ordered, Sorting.Sorted(KeyLeq, ordered));
    case _ =>
  }

  // What was saved can be read back: the same dictionary, fields in canonical order.
  lemma SavedReads(hash: string -> string, v: Json)
    requires ValidRequest(hash, v) && TextSize(Encode(v)) <= MAX_REQUEST_BYTES
    ensures Read(hash, Encode(v), IdOf(v)) == Ok(Canon(v)) && SameValue(v, Canon(v))
  {
    hide ValidRequest, SameValue, WellKeyed, IdOf, StoredIn, TextSize;
    ValidKeyed(hash, v);
    CanonicalDecodes(v);
    CanonSame(v);
    CanonKeyed(v);
    ValidSame(hash, v, Canon(v));
    CanonicalText(v, Canon(v));
  }

  lemma ValidKeyed(hash: string -> string, v: Json)
    requires ValidRequest(hash, v)
    ensures v.Obj? && WellKeyed(v)
  {
  }

  // Two different texts that both read as the request of one id need two bodies of one digest:
  // short of a collision, a file can hold nothing but what was saved under its name.
  lemma TamperEvident(hash: string -> string, a: string, b: string, id: string)
    requires Read(hash, a, id).Ok? && Read(hash, b, id).Ok? && a != b
    ensures var x, y := Read(hash, a, id).value, Read(hash, b, id).value;
            && x.Obj? && y.Obj?
            && Collide(hash, Encode(Obj(Without(x.fields, "request_id"))), Encode(Obj(Without(y.fields, "request_id"))))
  {
    var x, y := Read(hash, a, id).value, Read(hash, b, id).value;
    hide Read, Encode, SameValue, Without, WellKeyed, Get, RequestId;
    ReadTells(hash, a, id);
    ReadTells(hash, b, id);
    var xs, ys := x.fields, y.fields;
    WithoutKeyed(xs, "request_id");
    WithoutKeyed(ys, "request_id");
    CanonicalText(Obj(Without(xs, "request_id")), Obj(Without(ys, "request_id")));
    CanonicalText(x, y);
    if SameValue(Obj(Without(xs, "request_id")), Obj(Without(ys, "request_id"))) {
      SameWith(xs, ys, "request_id");
    }
  }

  // What a file that reads as a request says of it
  lemma ReadTells(hash: string -> string, raw: string, id: string)
    requires Read(hash, raw, id).Ok?
    ensures var v := Read(hash, raw, id).value;
            && v.Obj? && WellKeyed(v) && Encode(v) == raw
            && Get(v.fields, "request_id") == Some(Str(id))
            && hash(Encode(Obj(Without(v.fields, "request_id")))) == id
  {
    hide Encode, Decode, TextSize, Bound, Asks, WellKeyed, Get, Without, IsId;
  }

  lemma WithoutKeyed(xs: seq<Field>, key: string)
    requires WellKeyed(Obj(xs))
    ensures WellKeyed(Obj(Without(xs, key)))
  {
    WithoutField(xs, key);
  }

  // Dictionaries that agree on one member and on all the others are the same.
  lemma SameWith(xs: seq<Field>, ys: seq<Field>, key: string)
    requires WellKeyed(Obj(xs)) && WellKeyed(Obj(ys))
    requires SameValue(Obj(Without(xs, key)), Obj(Without(ys, key)))
    requires Get(xs, key).Some? && Get(xs, key).value.Str? && Get(ys, key) == Get(xs, key)
    ensures SameValue(Obj(xs), Obj(ys))
  {
    hide Without, DistinctKeys, Get, Keys;
    WithoutField(xs, key);
    WithoutField(ys, key);
    GetField(xs, key);
    GetField(ys, key);
    forall i | 0 <= i < |xs| ensures HasField(xs[i], ys) {
      assert xs[i] in xs;
      if xs[i].key == key {
        FieldThere(xs[i], ys);
      } else {
        FieldOf(Without(xs, key), Without(ys, key), xs[i]);
        FieldMoves(xs[i], Without(ys, key), ys);
      }
    }
  }

  lemma FieldThere(x: Field, ys: seq<Field>)
    requires x.value.Str? && x in ys
    ensures HasField(x, ys)
  {
    var j :| 0 <= j < |ys| && ys[j] == x;
  }
}
