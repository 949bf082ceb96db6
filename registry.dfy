/** The enumeration catalog the codec consults (PyKMIP's `kmip.core.enums`,
    which includes the `Tags` and `Types` registries), kept abstract, and the
    fixed name tables written into the source itself. */
module Registry {
  import opened Wrappers

  /** One enumeration class: its members as (name, value) pairs, in the order
      `dir()` lists them. */
  type Namespace = seq<(string, int)>

  /** The catalog: enumeration class name to its members. */
  type Catalog = map<string, Namespace>

  /** Member value by name (`getattr(enum_class, name).value`); the first
      member of that name wins. */
  function LookupName(ns: Namespace, name: string): (r: Option<int>)
    ensures r.Some? <==> exists i :: 0 <= i < |ns| && ns[i].0 == name
    ensures r.Some? ==> exists i :: 0 <= i < |ns| && ns[i] == (name, r.value)
  {
    if ns == [] then None
    else if ns[0].0 == name then Some(ns[0].1)
    else LookupName(ns[1..], name)
  }

  /** Member name by value: the first member, in `dir()` order, whose value is
      `v`, as the decoder's scan `for name in dir(enum)` finds it. */
  function LookupValue(ns: Namespace, v: int): (r: Option<string>)
    ensures r.Some? <==> exists i :: 0 <= i < |ns| && ns[i].1 == v
    ensures r.Some? ==> exists i :: 0 <= i < |ns| && ns[i] == (r.value, v)
  {
    if ns == [] then None
    else if ns[0].1 == v then Some(ns[0].0)
    else LookupValue(ns[1..], v)
  }

  /** Distinct names and distinct values: what lets a name and its value stand
      for each other. */
  ghost predicate Injective(ns: Namespace) {
    forall i, j :: 0 <= i < j < |ns| ==> ns[i].0 != ns[j].0 && ns[i].1 != ns[j].1
  }

  /** In an injective namespace, looking a name's value back up gives the name. */
  lemma {:induction false} NameThenValue(ns: Namespace, name: string)
    requires Injective(ns) && LookupName(ns, name).Some?
    ensures LookupValue(ns, LookupName(ns, name).value) == Some(name)
  {
    if ns[0].0 != name {
      NameThenValue(ns[1..], name);
      var v := LookupName(ns, name).value;
      var i :| 0 <= i < |ns| && ns[i] == (name, v);
      assert ns[0].1 != v by { assert ns[0].1 != ns[i].1; }
    }
  }

  /** In an injective namespace, a value found by name is the value asked for. */
  lemma {:induction false} ValueThenName(ns: Namespace, v: int)
    requires Injective(ns) && LookupValue(ns, v).Some?
    ensures LookupName(ns, LookupValue(ns, v).value) == Some(v)
  {
    if ns[0].1 != v {
      ValueThenName(ns[1..], v);
      var name := LookupValue(ns, v).value;
      var i :| 0 <= i < |ns| && ns[i] == (name, v);
      assert ns[0].0 != name by { assert ns[0].0 != ns[i].0; }
    }
  }

  /** A member looked up by name inside a named class; `None` when the class
      is absent or has no such member (both end the same way in the source). */
  function FindInClass(cat: Catalog, cls: string, name: string): (r: Option<int>)
    ensures r.Some? ==> cls in cat && LookupName(cat[cls], name) == r
  {
    if cls in cat then LookupName(cat[cls], name) else None
  }

  /** The first class in `classes` that has a member `name`, and that member's value. */
  function FindInClasses(cat: Catalog, classes: seq<string>, name: string): (r: Option<int>)
    ensures r.None? <==> forall k :: 0 <= k < |classes| ==> FindInClass(cat, classes[k], name).None?
    ensures r.Some? ==> exists k :: 0 <= k < |classes| && FindInClass(cat, classes[k], name) == r
                                     && forall k' :: 0 <= k' < k ==> FindInClass(cat, classes[k'], name).None?
  {
    if classes == [] then None
    else match FindInClass(cat, classes[0], name)
      case Some(v) => Some(v)
      case None =>
        var r := FindInClasses(cat, classes[1..], name);
        assert forall k :: 1 <= k < |classes| ==> classes[k] == classes[1..][k - 1];
        r
  }

  // ---------------------------------------------------------------------
  // Tables written into the encoder (encode_ttlv.py) and its text parser

  /** Values taken for an `ATTRIBUTE_VALUE` name before any class is consulted. */
  const COMMON_ATTRIBUTE_VALUES: map<string, int> := map[
    "AES" := 3, "DES" := 1, "TRIPLE_DES" := 2, "RSA" := 4, "DSA" := 5,
    "SYMMETRIC_KEY" := 2, "PUBLIC_KEY" := 3, "PRIVATE_KEY" := 4, "CERTIFICATE" := 6,
    "USERNAME_AND_PASSWORD" := 1, "DEVICE_SPECIFIC" := 2]

  const CREDENTIAL_TYPES: map<string, int> := map[
    "USERNAME_AND_PASSWORD" := 1, "DEVICE_SPECIFIC" := 2]

  const OBJECT_TYPES: map<string, int> := map[
    "CERTIFICATE" := 1, "SYMMETRIC_KEY" := 2, "PUBLIC_KEY" := 3, "PRIVATE_KEY" := 4,
    "SPLIT_KEY" := 5, "TEMPLATE" := 6, "SECRET_DATA" := 7, "OPAQUE_DATA" := 8]

  const OBJECT_GROUPS: map<string, int> := map["DEFAULT" := 0, "NONE" := 0]

  /** Key states recognised for an attribute value ahead of the attribute context. */
  const STATES: map<string, int> := map[
    "PRE_ACTIVE" := 1, "ACTIVE" := 2, "DEACTIVATED" := 3, "COMPROMISED" := 4,
    "DESTROYED" := 5, "DESTROYED_COMPROMISED" := 6]

  /** Operation names the structured-text parser turns into numbers. */
  const OPERATIONS: map<string, int> := map[
    "CREATE" := 1, "CREATE_KEY_PAIR" := 2, "REGISTER" := 3, "REKEY" := 4,
    "DERIVE_KEY" := 5, "CERTIFY" := 6, "RECERTIFY" := 7, "LOCATE" := 8,
    "CHECK" := 9, "GET" := 10, "GET_ATTRIBUTES" := 11, "GET_ATTRIBUTE_LIST" := 12,
    "ADD_ATTRIBUTE" := 13, "MODIFY_ATTRIBUTE" := 14, "DELETE_ATTRIBUTE" := 15,
    "OBTAIN_LEASE" := 16, "GET_USAGE_ALLOCATION" := 17, "ACTIVATE" := 18,
    "REVOKE" := 19, "DESTROY" := 20, "ARCHIVE" := 21, "RECOVER" := 22,
    "VALIDATE" := 23, "QUERY" := 24, "CANCEL" := 25, "POLL" := 26,
    "NOTIFY" := 27, "PUT" := 28, "REKEY_KEY_PAIR" := 29, "DISCOVER_VERSIONS" := 30,
    "ENCRYPT" := 31, "DECRYPT" := 32, "SIGN" := 33, "SIGNATURE_VERIFY" := 34,
    "MAC" := 35, "MAC_VERIFY" := 36, "RNG_RETRIEVE" := 37, "RNG_SEED" := 38,
    "HASH" := 39, "CREATE_SPLIT_KEY" := 40, "JOIN_SPLIT_KEY" := 41, "IMPORT" := 42,
    "EXPORT" := 43, "LOG" := 44, "LOGIN" := 45, "LOGOUT" := 46,
    "DELEGATED_LOGIN" := 47, "ADJUST_ATTRIBUTE" := 48, "SET_ATTRIBUTE" := 49,
    "SET_ENDPOINT_ROLE" := 50, "PKCS_11" := 51, "INTEROP" := 52, "REPROVISION" := 53]
}
