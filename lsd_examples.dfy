/**
 * The documents of the repository's own tests (internal/lsd_test.go),
 * taken through the transform.
 */
module LsdExamples {
  import opened Wrappers
  import opened Document
  import Base64
  import opened Lsd

  /** The bytes of `secret`. */
  const PasswordBytes: seq<Base64.Byte> := [115, 101, 99, 114, 101, 116]

  /** The bytes of `list secret decode`. */
  const AppBytes: seq<Base64.Byte> := [108, 105, 115, 116, 32, 115, 101, 99, 114, 101, 116, 32, 100, 101, 99, 111, 100, 101]

  lemma PasswordQuanta()
    ensures Base64.DecodeQuantum('c', '2', 'V', 'j') == Some([115, 101, 99])
    ensures Base64.DecodeQuantum('c', 'm', 'V', '0') == Some([114, 101, 116])
  {
  }

  lemma PasswordText()
    ensures BytesToString(PasswordBytes) == "secret"
  {
    var text := BytesToString(PasswordBytes);
    assert text[0] == 's' && text[1] == 'e' && text[2] == 'c' && text[3] == 'r' && text[4] == 'e' && text[5] == 't';
  }

  /** `c2VjcmV0` is `secret`. */
  lemma DecodeSecretPassword()
    ensures DecodeSecret("c2VjcmV0") == "secret"
  {
    PasswordQuanta();
    Base64.DecodeSingleQuantum("cmV0");
    Base64.DecodeQuantumThen("c2Vj", "cmV0", [115, 101, 99], [114, 101, 116]);
    assert "c2Vj" + "cmV0" == "c2VjcmV0";
    assert [115, 101, 99] + [114, 101, 116] == PasswordBytes;
    PasswordText();
  }

  lemma AppQuantaHead()
    ensures Base64.DecodeQuantum('b', 'G', 'l', 'z') == Some([108, 105, 115])
    ensures Base64.DecodeQuantum('d', 'C', 'B', 'z') == Some([116, 32, 115])
    ensures Base64.DecodeQuantum('Z', 'W', 'N', 'y') == Some([101, 99, 114])
  {
  }

  lemma AppQuantaMiddle()
    ensures Base64.DecodeQuantum('Z', 'X', 'Q', 'g') == Some([101, 116, 32])
  {
  }

  lemma AppQuantaTail()
    ensures Base64.DecodeQuantum('Z', 'G', 'V', 'j') == Some([100, 101, 99])
    ensures Base64.DecodeQuantum('b', '2', 'R', 'l') == Some([111, 100, 101])
  {
  }

  // The `app` value is written as the concatenation of its six quanta and
  // decoded from the last quantum backwards, one quantum per lemma.

  lemma DecodeAppFrom16()
    ensures Base64.Decode("ZGVj" + "b2Rl") == Some([100, 101, 99] + [111, 100, 101])
  {
    AppQuantaTail();
    Base64.DecodeSingleQuantum("b2Rl");
    Base64.DecodeQuantumThen("ZGVj", "b2Rl", [100, 101, 99], [111, 100, 101]);
  }

  lemma DecodeAppFrom12()
    ensures Base64.Decode("ZXQg" + ("ZGVj" + "b2Rl")) == Some([101, 116, 32] + ([100, 101, 99] + [111, 100, 101]))
  {
    AppQuantaMiddle();
    DecodeAppFrom16();
    Base64.DecodeQuantumThen("ZXQg", "ZGVj" + "b2Rl", [101, 116, 32], [100, 101, 99] + [111, 100, 101]);
  }

  lemma DecodeAppFrom8()
    ensures Base64.Decode("ZWNy" + ("ZXQg" + ("ZGVj" + "b2Rl")))
         == Some([101, 99, 114] + ([101, 116, 32] + ([100, 101, 99] + [111, 100, 101])))
  {
    AppQuantaHead();
    DecodeAppFrom12();
    Base64.DecodeQuantumThen("ZWNy", "ZXQg" + ("ZGVj" + "b2Rl"), [101, 99, 114], [101, 116, 32] + ([100, 101, 99] + [111, 100, 101]));
  }

  lemma DecodeAppFrom4()
    ensures Base64.Decode("dCBz" + ("ZWNy" + ("ZXQg" + ("ZGVj" + "b2Rl"))))
         == Some([116, 32, 115] + ([101, 99, 114] + ([101, 116, 32] + ([100, 101, 99] + [111, 100, 101]))))
  {
    AppQuantaHead();
    DecodeAppFrom8();
    Base64.DecodeQuantumThen("dCBz", "ZWNy" + ("ZXQg" + ("ZGVj" + "b2Rl")), [116, 32, 115],
      [101, 99, 114] + ([101, 116, 32] + ([100, 101, 99] + [111, 100, 101])));
  }

  lemma DecodeApp()
    ensures Base64.Decode("bGlz" + ("dCBz" + ("ZWNy" + ("ZXQg" + ("ZGVj" + "b2Rl"))))) == Some(AppBytes)
  {
    AppQuantaHead();
    DecodeAppFrom4();
    Base64.DecodeQuantumThen("bGlz", "dCBz" + ("ZWNy" + ("ZXQg" + ("ZGVj" + "b2Rl"))), [108, 105, 115],
      [116, 32, 115] + ([101, 99, 114] + ([101, 116, 32] + ([100, 101, 99] + [111, 100, 101]))));
    AppBytesQuanta();
  }

  lemma AppBytesQuanta()
    ensures [108, 105, 115] + ([116, 32, 115] + ([101, 99, 114] + ([101, 116, 32] + ([100, 101, 99] + [111, 100, 101])))) == AppBytes
  {
  }

  lemma AppQuanta()
    ensures "bGlz" + ("dCBz" + ("ZWNy" + ("ZXQg" + ("ZGVj" + "b2Rl")))) == "bGlzdCBzZWNyZXQgZGVjb2Rl"
  {
  }

  lemma AppText()
    ensures BytesToString(AppBytes) == "list secret decode"
  {
    var text := BytesToString(AppBytes);
    assert text[0] == 'l' && text[1] == 'i' && text[2] == 's' && text[3] == 't' && text[4] == ' ' && text[5] == 's';
    assert text[6] == 'e' && text[7] == 'c' && text[8] == 'r' && text[9] == 'e' && text[10] == 't' && text[11] == ' ';
    assert text[12] == 'd' && text[13] == 'e' && text[14] == 'c' && text[15] == 'o' && text[16] == 'd' && text[17] == 'e';
  }

  /** `bGlzdCBzZWNyZXQgZGVjb2Rl` is `list secret decode`. */
  lemma DecodeSecretApp()
    ensures DecodeSecret("bGlzdCBzZWNyZXQgZGVjb2Rl") == "list secret decode"
  {
    DecodeApp();
    AppQuanta();
    AppText();
  }
  // The documents of the tests, built from their parts so that each step
  // of the proof below deals with one level of the document.

  /** A `data` mapping with the two entries of the tests. */
  function DataOf(password: string, app: string): Object {
    map["password" := Str(password), "app" := Str(app)]
  }

  /** A `stringData` mapping with the two entries of the tests. */
  function StringDataOf(password: string, app: string): Object {
    map["app" := Str(app), "password" := Str(password)]
  }

  /** A Secret shaped like the single test Secret. */
  function SecretOf(data: Value, metadata: Value): Object {
    map["apiVersion" := Str("v1"), "data" := data, "kind" := Str("Secret"), "metadata" := metadata, "type" := Str("Opaque")]
  }

  /** The same Secret after the transform. */
  function DecodedSecretOf(stringData: Value, metadata: Value): Object {
    map["apiVersion" := Str("v1"), "kind" := Str("Secret"), "metadata" := metadata, "stringData" := stringData, "type" := Str("Opaque")]
  }

  /** A list item holding only `data`. */
  function ItemOf(data: Value): Object {
    map["data" := data]
  }

  /** A list item holding only `stringData`. */
  function DecodedItemOf(stringData: Value): Object {
    map["stringData" := stringData]
  }

  /** A SecretList of two items. */
  function ListOf(first: Value, second: Value): Object {
    map["apiVersion" := Str("v1"), "items" := Arr([first, second])]
  }

  const TestData: Object := DataOf("c2VjcmV0", "bGlzdCBzZWNyZXQgZGVjb2Rl")
  const TestStringData: Object := StringDataOf("secret", "list secret decode")
  const TestMetadata: Value := Obj(map["name" := Str("list secret decode"), "namespace" := Str("lsd")])

  /** The single test Secret, as parsed from either of its two formats. */
  const TestSecret: Object := SecretOf(Obj(TestData), TestMetadata)
  const TestSecretDecoded: Object := DecodedSecretOf(Obj(TestStringData), TestMetadata)

  /** The test SecretList: two items, each holding only `data`. */
  const TestList: Object := ListOf(Obj(ItemOf(Obj(TestData))), Obj(ItemOf(Obj(TestData))))
  const TestListDecoded: Object := ListOf(Obj(DecodedItemOf(Obj(TestStringData))), Obj(DecodedItemOf(Obj(TestStringData))))

  lemma DataOfKeys(password: string, app: string)
    ensures AllStrings(DataOf(password, app))
    ensures DecodedData(DataOf(password, app)).Keys == {"password", "app"}
  {
  }

  lemma DataOfApp(password: string, app: string)
    ensures AllStrings(DataOf(password, app))
    ensures DecodedData(DataOf(password, app))["app"] == DecodeSecret(app)
  {
  }

  lemma DataOfPassword(password: string, app: string)
    ensures AllStrings(DataOf(password, app))
    ensures DecodedData(DataOf(password, app))["password"] == DecodeSecret(password)
  {
  }

  lemma StringMapPair(password: string, app: string)
    ensures StringMap(map["app" := app, "password" := password]) == StringDataOf(password, app)
  {
  }

  /** A two-entry `data` mapping decodes entry by entry. */
  lemma DecodedPair(password: string, app: string, passwordText: string, appText: string)
    requires DecodeSecret(password) == passwordText && DecodeSecret(app) == appText
    ensures AllStrings(DataOf(password, app))
    ensures StringMap(DecodedData(DataOf(password, app))) == StringDataOf(passwordText, appText)
  {
    DataOfKeys(password, app);
    DataOfApp(password, app);
    DataOfPassword(password, app);
    assert DecodedData(DataOf(password, app)) == map["app" := appText, "password" := passwordText];
    StringMapPair(passwordText, appText);
  }

  /** Both values of the test `data` decode to the expected text. */
  lemma TestDataDecoded()
    ensures |TestData| > 0 && AllStrings(TestData)
    ensures StringMap(DecodedData(TestData)) == TestStringData
  {
    DecodeSecretPassword();
    DecodeSecretApp();
    DecodedPair("c2VjcmV0", "bGlzdCBzZWNyZXQgZGVjb2Rl", "secret", "list secret decode");
    assert "password" in TestData;
  }

  lemma SecretShape(data: Value, stringData: Value, metadata: Value)
    ensures SecretOf(data, metadata)[StringDataKey := stringData] - {DataKey} == DecodedSecretOf(stringData, metadata)
  {
  }

  /** A Secret shaped like the test Secret trades its `data` for `stringData`. */
  lemma SecretReshaped(data: Object, stringData: Object, metadata: Value)
    requires |data| > 0 && AllStrings(data) && StringMap(DecodedData(data)) == stringData
    ensures !IsList(SecretOf(Obj(data), metadata)) && Decodable(SecretOf(Obj(data), metadata))
    ensures Reshaped(SecretOf(Obj(data), metadata)) == DecodedSecretOf(Obj(stringData), metadata)
  {
    assert HasData(SecretOf(Obj(data), metadata));
    SecretShape(Obj(data), Obj(stringData), metadata);
  }

  /** The single test Secret is transformed into the expected Secret. */
  lemma TestSecretTransformed()
    ensures !IsList(TestSecret) && Transformable(TestSecret)
    ensures Transformed(TestSecret) == TestSecretDecoded
  {
    TestDataDecoded();
    SecretReshaped(TestData, TestStringData, TestMetadata);
  }

  lemma ItemShape(data: Value, stringData: Value)
    ensures ItemOf(data)[StringDataKey := stringData] - {DataKey} == DecodedItemOf(stringData)
  {
  }

  /** A list item holding only `data` comes to hold only `stringData`. */
  lemma ItemReshaped(data: Object, stringData: Object)
    requires |data| > 0 && AllStrings(data) && StringMap(DecodedData(data)) == stringData
    ensures Decodable(ItemOf(Obj(data)))
    ensures Reshaped(ItemOf(Obj(data))) == DecodedItemOf(Obj(stringData))
  {
    assert HasData(ItemOf(Obj(data)));
    ItemShape(Obj(data), Obj(stringData));
  }

  lemma ListShape(list: Object, first: Value, second: Value, items: seq<Value>)
    requires list.Keys == {"apiVersion", "items"} && list["apiVersion"] == Str("v1")
    requires items == [first, second]
    ensures list[ItemsKey := Arr(items)] == ListOf(first, second)
  {
  }

  /** Only `items` of a list changes. */
  lemma ListKeepsKeys(list: Object)
    requires ListDecodable(list)
    ensures ReshapedList(list) == list[ItemsKey := ReshapedList(list)[ItemsKey]]
  {
  }

  /** Both items of a list of two equal items are reshaped alike. */
  lemma ListItemsReshaped(list: Object, item: Object, decoded: Object)
    requires Decodable(item) && Reshaped(item) == decoded
    requires ListDecodable(list) && list[ItemsKey].elems == [Obj(item), Obj(item)]
    ensures ReshapedList(list)[ItemsKey] == Arr([Obj(decoded), Obj(decoded)])
  {
    var items := ReshapedList(list)[ItemsKey].elems;
    forall k | 0 <= k < |items|
      ensures items[k] == Obj(decoded)
    {
      assert list[ItemsKey].elems[k] == Obj(item);
    }
  }

  lemma ListDecodableOf(item: Object)
    requires Decodable(item)
    ensures IsList(ListOf(Obj(item), Obj(item))) && ListDecodable(ListOf(Obj(item), Obj(item)))
    ensures ListOf(Obj(item), Obj(item))[ItemsKey].elems == [Obj(item), Obj(item)]
  {
  }

  /** A list of two equal items is transformed item by item. */
  lemma ListReshaped(item: Object, decoded: Object)
    requires Decodable(item) && Reshaped(item) == decoded
    ensures IsList(ListOf(Obj(item), Obj(item))) && ListDecodable(ListOf(Obj(item), Obj(item)))
    ensures ReshapedList(ListOf(Obj(item), Obj(item))) == ListOf(Obj(decoded), Obj(decoded))
  {
    var list := ListOf(Obj(item), Obj(item));
    ListDecodableOf(item);
    ListItemsReshaped(list, item, decoded);
    ListKeepsKeys(list);
    ListShape(list, Obj(decoded), Obj(decoded), [Obj(decoded), Obj(decoded)]);
  }

  /** The test SecretList is transformed into the expected SecretList. */
  lemma TestListTransformed()
    ensures IsList(TestList) && Transformable(TestList)
    ensures Transformed(TestList) == TestListDecoded
  {
    TestDataDecoded();
    ItemReshaped(TestData, TestStringData);
    ListReshaped(ItemOf(Obj(TestData)), DecodedItemOf(Obj(TestStringData)));
  }

  /** `Run` on the test Secret, in either format, succeeds with the expected document. */
  method RunTestSecret(format: Format) returns (r: Result<Output, Error>)
    ensures r == Success(Output(format, TestSecretDecoded))
  {
    TestSecretTransformed();
    r := Run(TestSecret, format);
  }

  /** `Run` on the test SecretList, in either format, succeeds with the expected document. */
  method RunTestList(format: Format) returns (r: Result<Output, Error>)
    ensures r == Success(Output(format, TestListDecoded))
  {
    TestListTransformed();
    r := Run(TestList, format);
  }
}
