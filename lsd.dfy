/**
 * The decode-and-reshape transform of a Kubernetes Secret or SecretList:
 * every `data` mapping of base64 text becomes a `stringData` mapping of
 * decoded text, and nothing else in the document changes.
 *
 * The success results are given by the functions Reshaped, ReshapedList and
 * Transformed; the methods StringData, ListSecrets, Decode and Run follow the
 * step-by-step code and are proved to produce exactly those results, or to
 * fail with an error the source could have reported.
 */
module Lsd {
  import opened Wrappers
  import opened Document
  import Base64

  const ItemsKey: string := "items"
  const DataKey: string := "data"
  const StringDataKey: string := "stringData"

  /** Go's `string(bytes)`: byte i becomes the character whose code is that byte. */
  function BytesToString(b: seq<Base64.Byte>): (s: string)
    ensures |s| == |b|
    ensures forall i :: 0 <= i < |b| ==> s[i] as int == b[i] as int
  {
    seq(|b|, i requires 0 <= i < |b| => b[i] as char)
  }

  /** `cast`: the type assertion of a value to a mapping. */
  function Cast(v: Value): (r: Option<Object>)
    ensures r.Some? <==> v.Obj?
    ensures r.Some? ==> Obj(r.value) == v
  {
    match v
    case Obj(fields) => Some(fields)
    case _ => None
  }

  /**
   * `decodeSecret`: the decoded text when the value is valid padded base64,
   * otherwise the value itself; never an error.
   */
  function DecodeSecret(secret: string): (value: string)
    ensures !Base64.WellFormed(secret) ==> value == secret
    ensures Base64.WellFormed(secret) ==> Base64.Decode(secret).Some? && value == BytesToString(Base64.Decode(secret).value)
  {
    match Base64.Decode(secret)
    case Some(decoded) => BytesToString(decoded)
    case None => secret
  }

  /** A decoded value is as long as its base64 text says: three characters for every four. */
  lemma DecodeSecretLength(secret: string)
    requires Base64.WellFormed(secret)
    ensures |secret| == 4 * ((|DecodeSecret(secret)| + 2) / 3)
  {
    Base64.DecodeLength(secret);
  }

  /** Every entry of a `data` mapping holds a string. */
  predicate AllStrings(data: Object) {
    forall k :: k in data ==> data[k].Str?
  }

  /** The error names an entry of `data` whose value is not a string. */
  predicate NamesNonString(data: Object, e: Error) {
    e.NotAString? && e.key in data && !data[e.key].Str?
  }

  /** What one decoding task sends back (Go type `decodedSecret`). */
  datatype DecodedSecret = DecodedSecret(key: string, value: string)

  /** `value` is what the task for `key` sends back. */
  predicate DecodedFrom(data: Object, key: string, value: string) {
    key in data && data[key].Str? && value == DecodeSecret(data[key].s)
  }

  ghost function PendingKeys(pending: seq<DecodedSecret>): set<string> {
    set e | e in pending :: e.key
  }

  lemma PendingKeysAppend(pending: seq<DecodedSecret>, task: DecodedSecret)
    ensures PendingKeys(pending + [task]) == PendingKeys(pending) + {task.key}
  {
    assert forall e :: e in pending + [task] <==> e in pending || e == task;
  }

  lemma PendingKeysRemove(pending: seq<DecodedSecret>, i: nat)
    requires i < |pending|
    ensures PendingKeys(pending) == PendingKeys(pending[..i] + pending[i + 1..]) + {pending[i].key}
  {
    var rest := pending[..i] + pending[i + 1..];
    assert pending == pending[..i] + [pending[i]] + pending[i + 1..];
    assert forall e :: e in pending <==> e in rest || e == pending[i];
  }

  /**
   * The fan-out half of `decode`: visit the entries in the map's unspecified
   * iteration order and start one decoding task per entry, or stop at an
   * entry that is not a string. The started tasks are represented by the
   * results they will send.
   */
  method StartTasks(data: Object) returns (r: Result<seq<DecodedSecret>, Error>)
    ensures r.Success? <==> AllStrings(data)
    ensures r.Success? ==> |r.value| == |data.Keys| && PendingKeys(r.value) == data.Keys
    ensures r.Success? ==> forall e :: e in r.value ==> DecodedFrom(data, e.key, e.value)
    ensures r.Failure? ==> NamesNonString(data, r.error)
  {
    var pending: seq<DecodedSecret> := [];
    var unvisited := data.Keys;
    while unvisited != {}
      invariant unvisited <= data.Keys
      invariant forall k :: k in data && k !in unvisited ==> data[k].Str?
      invariant PendingKeys(pending) == data.Keys - unvisited
      invariant forall e :: e in pending ==> DecodedFrom(data, e.key, e.value)
      invariant |pending| + |unvisited| == |data.Keys|
      decreases unvisited
    {
      var key :| key in unvisited;
      if !data[key].Str? {
        return Failure(NotAString(key));
      }
      var task := DecodedSecret(key, DecodeSecret(data[key].s));
      PendingKeysAppend(pending, task);
      pending := pending + [task];
      unvisited := unvisited - {key};
    }
    return Success(pending);
  }

  /**
   * The fan-in half of `decode`: receive `length` results, in whatever order
   * the tasks finish, into a fresh map.
   */
  method ReceiveAll(ghost data: Object, tasks: seq<DecodedSecret>, length: nat) returns (decoded: map<string, string>)
    requires |tasks| == length
    requires forall e :: e in tasks ==> DecodedFrom(data, e.key, e.value)
    ensures decoded.Keys == PendingKeys(tasks)
    ensures forall k :: k in decoded ==> DecodedFrom(data, k, decoded[k])
  {
    var pending := tasks;
    decoded := map[];
    var received := 0;
    while received < length
      invariant |pending| + received == length
      invariant decoded.Keys + PendingKeys(pending) == PendingKeys(tasks)
      invariant forall e :: e in pending ==> DecodedFrom(data, e.key, e.value)
      invariant forall k :: k in decoded ==> DecodedFrom(data, k, decoded[k])
    {
      var i :| 0 <= i < |pending|;
      var result := pending[i];
      PendingKeysRemove(pending, i);
      decoded := decoded[result.key := result.value];
      pending := pending[..i] + pending[i + 1..];
      received := received + 1;
    }
  }

  /**
   * `decode`: a decoded mapping with exactly the keys of `data`, or, when some
   * value is not a string, an error naming such a key. Which key is named
   * depends on the map's iteration order; the order in which the tasks'
   * results arrive does not matter.
   */
  method Decode(data: Object) returns (r: Result<map<string, string>, Error>)
    ensures r.Success? <==> AllStrings(data)
    ensures r.Success? ==> r.value.Keys == data.Keys
    ensures r.Success? ==> forall k :: k in data ==> r.value[k] == DecodeSecret(data[k].s)
    ensures r.Failure? ==> NamesNonString(data, r.error)
  {
    var length := |data.Keys|;
    var started := StartTasks(data);
    if started.Failure? {
      return Failure(started.error);
    }
    var decoded := ReceiveAll(data, started.value, length);
    return Success(decoded);
  }

  /** `stringData` has something to decode: `data` is a mapping and is not empty. */
  predicate HasData(s: Object) {
    var data := Cast(Get(s, DataKey));
    data.Some? && |data.value| > 0
  }

  /** `stringData` succeeds on this object. */
  predicate Decodable(s: Object) {
    HasData(s) ==> AllStrings(s[DataKey].fields)
  }

  /** A `map[string]string` as a document value. */
  function StringMap(m: map<string, string>): Object {
    map k | k in m :: Str(m[k])
  }

  /** The decoded form of a `data` mapping of strings. */
  function DecodedData(data: Object): map<string, string>
    requires AllStrings(data)
  {
    map k | k in data :: DecodeSecret(data[k].s)
  }

  /**
   * What `stringData` makes of an object it succeeds on: unchanged when there
   * is nothing to decode; otherwise `data` is gone and `stringData` holds the
   * decoded entries under the same keys. No other key is touched.
   */
  function Reshaped(s: Object): (r: Object)
    requires Decodable(s)
    ensures !HasData(s) ==> r == s
    ensures HasData(s) ==> r.Keys == s.Keys - {DataKey} + {StringDataKey}
    ensures HasData(s) ==> r[StringDataKey].Obj? && r[StringDataKey].fields.Keys == s[DataKey].fields.Keys
    ensures HasData(s) ==> forall k :: k in s[DataKey].fields ==>
      r[StringDataKey].fields[k] == Str(DecodeSecret(s[DataKey].fields[k].s))
    ensures forall k :: k in s && k != DataKey && k != StringDataKey ==> k in r && r[k] == s[k]
  {
    if !HasData(s) then s
    else s[StringDataKey := Obj(StringMap(DecodedData(s[DataKey].fields)))] - {DataKey}
  }

  /**
   * `stringData`: Reshaped(s) when that is defined, otherwise the error of
   * `decode`, naming a non-string entry of `data`.
   */
  method StringData(s: Object) returns (r: Result<Object, Error>)
    ensures r.Success? <==> Decodable(s)
    ensures r.Success? ==> r.value == Reshaped(s)
    ensures r.Failure? ==> HasData(s) && NamesNonString(s[DataKey].fields, r.error)
  {
    var data := Cast(Get(s, DataKey));
    if data.None? || |data.value| == 0 {
      return Success(s);
    }
    var decoded := Decode(data.value);
    if decoded.Failure? {
      return Failure(decoded.error);
    }
    assert decoded.value == DecodedData(data.value);
    var updated := s[StringDataKey := Obj(StringMap(decoded.value))];
    return Success(updated - {DataKey});
  }

  /** An element of `items` that `listSecrets` accepts. */
  predicate ItemDecodable(item: Value) {
    item.Obj? && Decodable(item.fields)
  }

  /** `listSecrets` succeeds on this document. */
  predicate ListDecodable(doc: Object) {
    Get(doc, ItemsKey).Arr? && forall k :: 0 <= k < |doc[ItemsKey].elems| ==> ItemDecodable(doc[ItemsKey].elems[k])
  }

  /**
   * What `listSecrets` makes of a document it succeeds on: `items` keeps its
   * length and order and element k becomes Reshaped of element k; every other
   * top-level key, `data` included, is left as it was.
   */
  function ReshapedList(doc: Object): (r: Object)
    requires ListDecodable(doc)
    ensures r.Keys == doc.Keys
    ensures forall k :: k in doc && k != ItemsKey ==> r[k] == doc[k]
    ensures r[ItemsKey].Arr? && |r[ItemsKey].elems| == |doc[ItemsKey].elems|
    ensures forall k :: 0 <= k < |doc[ItemsKey].elems| ==>
      r[ItemsKey].elems[k] == Obj(Reshaped(doc[ItemsKey].elems[k].fields))
  {
    var items := doc[ItemsKey].elems;
    doc[ItemsKey := Arr(seq(|items|, k requires 0 <= k < |items| => Obj(Reshaped(items[k].fields))))]
  }

  /** The reason an element of `items` is refused. */
  predicate ItemFails(item: Value, e: Error) {
    if !item.Obj? then e == ItemNotMap
    else HasData(item.fields) && NamesNonString(item.fields[DataKey].fields, e)
  }

  /**
   * The errors `listSecrets` can report: `items` is not a sequence, or the
   * first element that is refused is refused for this reason.
   */
  predicate ListFails(doc: Object, e: Error) {
    if !Get(doc, ItemsKey).Arr? then e == ItemsNotList
    else
      var items := doc[ItemsKey].elems;
      exists j :: 0 <= j < |items| && ItemFails(items[j], e) && forall i :: 0 <= i < j ==> ItemDecodable(items[i])
  }

  /** `listSecrets`: transforms the elements of `items` one by one, in place. */
  method ListSecrets(doc: Object) returns (r: Result<Object, Error>)
    ensures r.Success? <==> ListDecodable(doc)
    ensures r.Success? ==> r.value == ReshapedList(doc)
    ensures r.Failure? ==> ListFails(doc, r.error)
  {
    var list := Get(doc, ItemsKey);
    if !list.Arr? {
      return Failure(ItemsNotList);
    }
    var items := list.elems;
    for k := 0 to |items|
      invariant |items| == |list.elems|
      invariant forall j :: 0 <= j < k ==> ItemDecodable(list.elems[j]) && items[j] == Obj(Reshaped(list.elems[j].fields))
      invariant forall j :: k <= j < |items| ==> items[j] == list.elems[j]
    {
      var item := items[k];
      if !item.Obj? {
        assert ItemFails(list.elems[k], ItemNotMap);
        return Failure(ItemNotMap);
      }
      var plain := StringData(item.fields);
      if plain.Failure? {
        assert ItemFails(list.elems[k], plain.error);
        return Failure(plain.error);
      }
      items := items[k := Obj(plain.value)];
    }
    var expected := ReshapedList(doc);
    assert items == expected[ItemsKey].elems;
    assert doc[ItemsKey := Arr(items)] == expected;
    return Success(doc[ItemsKey := Arr(items)]);
  }

  /** `Run`'s dispatch: a document whose `items` is not nil is a list. */
  predicate IsList(doc: Object) {
    Get(doc, ItemsKey) != Null
  }

  /** `Run` succeeds on this parsed document. */
  predicate Transformable(doc: Object) {
    if IsList(doc) then ListDecodable(doc) else Decodable(doc)
  }

  /** The document `Run` writes out. */
  function Transformed(doc: Object): Object
    requires Transformable(doc)
  {
    if IsList(doc) then ReshapedList(doc) else Reshaped(doc)
  }

  /** The transformed document and the format it is written back in. */
  datatype Output = Output(format: Format, doc: Object)

  /**
   * `Run`, from the parsed document on: the list path exactly when `items`
   * is not nil, the single-object path otherwise; on success the document is
   * written in the format it was read in, on failure nothing is written.
   */
  method Run(doc: Object, format: Format) returns (r: Result<Output, Error>)
    ensures r.Success? <==> Transformable(doc)
    ensures r.Success? ==> r.value == Output(format, Transformed(doc))
    ensures r.Failure? && IsList(doc) ==> ListFails(doc, r.error)
    ensures r.Failure? && !IsList(doc) ==> HasData(doc) && NamesNonString(doc[DataKey].fields, r.error)
  {
    var result: Result<Object, Error>;
    if Get(doc, ItemsKey) != Null {
      result := ListSecrets(doc);
    } else {
      result := StringData(doc);
    }
    if result.Failure? {
      return Failure(result.error);
    }
    return Success(Output(format, result.value));
  }
  /** decodeSecret undoes standard padded base64 encoding of any byte string. */
  lemma DecodeSecretOfEncoding(b: seq<Base64.Byte>)
    ensures DecodeSecret(Base64.Encode(b)) == BytesToString(b)
  {
    Base64.DecodeEncode(b);
  }

  /** A reshaped object has no `data` left, so reshaping it again changes nothing. */
  lemma ReshapedIdempotent(s: Object)
    requires Decodable(s)
    ensures Decodable(Reshaped(s)) && !HasData(Reshaped(s))
    ensures Reshaped(Reshaped(s)) == Reshaped(s)
  {
    if HasData(s) {
      assert DataKey !in Reshaped(s);
    }
  }

  /** Reshaping a list twice is reshaping it once. */
  lemma ReshapedListIdempotent(doc: Object)
    requires ListDecodable(doc)
    ensures ListDecodable(ReshapedList(doc))
    ensures ReshapedList(ReshapedList(doc)) == ReshapedList(doc)
  {
    var once := ReshapedList(doc);
    var items := doc[ItemsKey].elems;
    forall k | 0 <= k < |items|
      ensures ItemDecodable(once[ItemsKey].elems[k])
      ensures Obj(Reshaped(once[ItemsKey].elems[k].fields)) == once[ItemsKey].elems[k]
    {
      ReshapedIdempotent(items[k].fields);
    }
    var twice := ReshapedList(once);
    assert twice[ItemsKey].elems == once[ItemsKey].elems;
  }

  /** The transform is idempotent: its output is accepted and left as it is. */
  lemma TransformIdempotent(doc: Object)
    requires Transformable(doc)
    ensures Transformable(Transformed(doc))
    ensures Transformed(Transformed(doc)) == Transformed(doc)
    ensures IsList(Transformed(doc)) == IsList(doc)
  {
    if IsList(doc) {
      ReshapedListIdempotent(doc);
      assert Get(ReshapedList(doc), ItemsKey).Arr?;
    } else {
      ReshapedIdempotent(doc);
      assert Get(Reshaped(doc), ItemsKey) == Null;
    }
  }

  /** A document that has a listSecrets error is not one listSecrets succeeds on. */
  lemma ListFailsExcludesSuccess(doc: Object, e: Error)
    requires ListFails(doc, e)
    ensures !ListDecodable(doc)
  {
    if Get(doc, ItemsKey).Arr? {
      var items := doc[ItemsKey].elems;
      var j :| 0 <= j < |items| && ItemFails(items[j], e) && forall i :: 0 <= i < j ==> ItemDecodable(items[i]);
      if items[j].Obj? {
        var data := items[j].fields[DataKey].fields;
        assert !data[e.key].Str?;
      }
      assert !ItemDecodable(items[j]);
    }
  }
}
