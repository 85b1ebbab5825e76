/**
 The response-shape check of `TestCodeValidator.validateResponseFields`.

 The parsed JSON response is an algebraic datatype and the top-level document
 a map from keys to values. Looking up a key that is absent gives `JNull`, as
 the JSON-path lookup returns `null` for both. The check's per-method branches
 are a closed enumeration of kinds with a table of rules. The Java code can also
 fail with an exception, and that is modelled as an explicit outcome:
 dereferencing a missing `Results` map or list throws `NullPointer`, and a
 `Results` value of the wrong JSON kind fails its cast with `ClassCast`.
 */
module ResponseFields {
  import opened Wrappers

  datatype Json =
    | JNull
    | JBool(b: bool)
    | JInt(n: int)
    | JString(text: string)
    | JList(items: seq<Json>)
    | JObject(fields: map<string, Json>)

  /** The top-level JSON object of a response. */
  type Document = map<string, Json>

  datatype Fault = NullPointer | ClassCast

  /** What the check does: return a verdict, or throw. */
  datatype Outcome = Returned(valid: bool) | Threw(fault: Fault)

  /** The value at a top-level key; `JNull` when the key is absent. */
  function Lookup(doc: Document, key: string): Json
  {
    if key in doc then doc[key] else JNull
  }

  /** Java's `int` range: a JSON integer in it is read as an `Integer`, a larger one as a `Long`. */
  predicate IsJavaInt(n: int)
  {
    -0x8000_0000 <= n < 0x8000_0000
  }

  const CancelMessage: string := "Appointment information updated successfully."

  /** The methods whose responses the check knows. */
  datatype Kind =
    | CreateAppointment
    | CancelAppointment
    | SearchPatient
    | BookingListInRange
    | MainStoreDetails
    | PharmacyStores
    | ActivatePharmCount

  /** The method name each kind is selected by. */
  function KindName(k: Kind): string
  {
    match k
    case CreateAppointment => "createAppointmentWithAuth"
    case CancelAppointment => "cancelAppointmentWithAuth"
    case SearchPatient => "searchPatientWithAuth"
    case BookingListInRange => "bookingListWithAuthInRange"
    case MainStoreDetails => "MainStoreDetailsWithAuth"
    case PharmacyStores => "PharmacyStoresWithAuth"
    case ActivatePharmCount => "ActivatePharmCount"
  }

  /** The `switch` on the method name: exact, case-sensitive string equality. */
  function KindOf(name: string): (k: Option<Kind>)
    ensures k.Some? ==> KindName(k.value) == name
    ensures k.None? ==> forall kind: Kind :: KindName(kind) != name
  {
    if name == "createAppointmentWithAuth" then Some(CreateAppointment)
    else if name == "cancelAppointmentWithAuth" then Some(CancelAppointment)
    else if name == "searchPatientWithAuth" then Some(SearchPatient)
    else if name == "bookingListWithAuthInRange" then Some(BookingListInRange)
    else if name == "MainStoreDetailsWithAuth" then Some(MainStoreDetails)
    else if name == "PharmacyStoresWithAuth" then Some(PharmacyStores)
    else if name == "ActivatePharmCount" then Some(ActivatePharmCount)
    else None
  }

  /** One check of a branch, on the response. */
  datatype Rule =
    | StatusIsOk
      // `Results.<field>` is a non-zero `Integer`
    | ResultsFieldIsNonZeroInt(field: string)
      // `Results` read as a string equals the message
    | ResultsIsText(message: string)
      // `Results` read as a list is present and non-empty
    | ResultsIsNonEmptyList
      // `Results` read as a map is present, non-empty and has every key
    | ResultsIsObjectWithKeys(keys: seq<string>)
      // `Results` read as a list is present, non-empty, and every element map has every key
    | ResultsEachHasKeys(keys: seq<string>)

  /** The rule table: the checks each branch of the `switch` makes, in order. */
  function Rules(k: Kind): seq<Rule>
  {
    match k
    case CreateAppointment => [StatusIsOk, ResultsFieldIsNonZeroInt("AppointmentId")]
    case CancelAppointment => [StatusIsOk, ResultsIsText(CancelMessage)]
    case SearchPatient => [StatusIsOk, ResultsIsNonEmptyList]
    case BookingListInRange => [StatusIsOk, ResultsIsNonEmptyList]
    case MainStoreDetails => [StatusIsOk, ResultsIsObjectWithKeys(["Name", "StoreDescription", "StoreId"])]
    case PharmacyStores => [StatusIsOk, ResultsEachHasKeys(["StoreId", "Name"])]
    case ActivatePharmCount => [StatusIsOk, ResultsIsObjectWithKeys(["CounterName", "CounterId"])]
  }

  /** Every key is present in the map (`containsKey`: a key bound to JSON null counts as present). */
  predicate HasKeys(m: map<string, Json>, keys: seq<string>)
  {
    forall i :: 0 <= i < |keys| ==> keys[i] in m
  }

  /**
   The `for` loop over the store list: each element is cast to a map (a JSON
   null stays null and its `containsKey` throws; any other non-object fails the
   cast) and must hold every key. The first failing element decides the fault.
   */
  function EachHasKeys(items: seq<Json>, keys: seq<string>): (r: Outcome)
    ensures r.Returned? <==> forall i :: 0 <= i < |items| ==> items[i].JObject?
    ensures r == Returned(true) <==> forall i :: 0 <= i < |items| ==> items[i].JObject? && HasKeys(items[i].fields, keys)
  {
    if |items| == 0 then Returned(true)
    else
      match items[0]
      case JNull => Threw(NullPointer)
      case JObject(m) =>
        (var rest := EachHasKeys(items[1..], keys);
         if rest.Threw? then rest else Returned(HasKeys(m, keys) && rest.valid))
      case _ => Threw(ClassCast)
  }

  /** One rule on the response. */
  function Check(rule: Rule, doc: Document): Outcome
  {
    match rule
    case StatusIsOk =>
      Returned(Lookup(doc, "Status") == JString("OK"))
    case ResultsFieldIsNonZeroInt(field) =>
      var id := (match Lookup(doc, "Results")
                 case JObject(m) => if field in m then m[field] else JNull
                 case _ => JNull);
      Returned(id.JInt? && IsJavaInt(id.n) && id.n != 0)
    case ResultsIsText(message) =>
      Returned(Lookup(doc, "Results") == JString(message))
    case ResultsIsNonEmptyList =>
      (match Lookup(doc, "Results")
       case JNull => Returned(false)
       case JList(items) => Returned(|items| > 0)
       case _ => Threw(ClassCast))
    case ResultsIsObjectWithKeys(keys) =>
      (match Lookup(doc, "Results")
       case JNull => Threw(NullPointer)
       case JObject(m) => Returned(|m| > 0 && HasKeys(m, keys))
       case _ => Threw(ClassCast))
    case ResultsEachHasKeys(keys) =>
      match Lookup(doc, "Results")
      case JNull => Threw(NullPointer)
      case JList(items) =>
        var each := EachHasKeys(items, keys);
        if each.Threw? then each else Returned(|items| > 0 && each.valid)
      case _ => Threw(ClassCast)
  }

  /**
   The rules in order, as the branch runs them: a failed rule only clears the
   verdict and the later rules still run, so the first exception wins over any
   verdict.
   */
  function CheckAll(rules: seq<Rule>, doc: Document): (r: Outcome)
    ensures r == Returned(true) <==> forall i :: 0 <= i < |rules| ==> Check(rules[i], doc) == Returned(true)
    ensures r.Threw? <==> exists i :: 0 <= i < |rules| && Check(rules[i], doc).Threw?
  {
    if |rules| == 0 then Returned(true)
    else
      match Check(rules[0], doc)
      case Threw(e) => Threw(e)
      case Returned(v) =>
        var rest := CheckAll(rules[1..], doc);
        if rest.Threw? then rest else Returned(v && rest.valid)
  }

  /** `validateResponseFields`: dispatch on the method name and run that kind's rules. */
  function ValidateResponseFields(name: string, doc: Document): (r: Outcome)
    ensures KindOf(name).None? ==> r == Returned(false)
    ensures r == Returned(true) ==> Lookup(doc, "Status") == JString("OK")
  {
    match KindOf(name)
    case None => Returned(false)
    case Some(k) => CheckAll(Rules(k), doc)
  }

  // ---------------------------------------------------------------------------
  // What each branch accepts, stated directly on the response.
  // ---------------------------------------------------------------------------

  /** A two-rule branch: the first exception wins, otherwise both verdicts must hold. */
  lemma CheckPair(a: Rule, b: Rule, doc: Document)
    ensures CheckAll([a, b], doc)
            == if Check(a, doc).Threw? then Check(a, doc)
               else if Check(b, doc).Threw? then Check(b, doc)
               else Returned(Check(a, doc).valid && Check(b, doc).valid)
  {
  }

  /** `createAppointmentWithAuth`: accepted iff Status is "OK" and `Results.AppointmentId` is a non-zero Java `int`. */
  lemma CreateAppointmentAccepts(doc: Document)
    ensures ValidateResponseFields("createAppointmentWithAuth", doc) == Returned(
              && Lookup(doc, "Status") == JString("OK")
              && Lookup(doc, "Results").JObject?
              && "AppointmentId" in Lookup(doc, "Results").fields
              && Lookup(doc, "Results").fields["AppointmentId"].JInt?
              && IsJavaInt(Lookup(doc, "Results").fields["AppointmentId"].n)
              && Lookup(doc, "Results").fields["AppointmentId"].n != 0)
  {
    assert KindOf("createAppointmentWithAuth") == Some(CreateAppointment);
    CheckPair(StatusIsOk, ResultsFieldIsNonZeroInt("AppointmentId"), doc);
  }

  /** `cancelAppointmentWithAuth`: accepted iff Status is "OK" and `Results` is exactly the success message. */
  lemma CancelAppointmentAccepts(doc: Document)
    ensures ValidateResponseFields("cancelAppointmentWithAuth", doc) == Returned(
              Lookup(doc, "Status") == JString("OK") && Lookup(doc, "Results") == JString(CancelMessage))
  {
    assert KindOf("cancelAppointmentWithAuth") == Some(CancelAppointment);
    CheckPair(StatusIsOk, ResultsIsText(CancelMessage), doc);
  }

  /**
   `searchPatientWithAuth` and `bookingListWithAuthInRange`: a missing
   `Results` is rejected, a list is accepted iff it is non-empty and Status is
   "OK", anything else fails the cast to a list.
   */
  lemma ListKindsAccept(name: string, doc: Document)
    requires name == "searchPatientWithAuth" || name == "bookingListWithAuthInRange"
    ensures Lookup(doc, "Results").JNull? ==> ValidateResponseFields(name, doc) == Returned(false)
    ensures Lookup(doc, "Results").JList? ==>
              ValidateResponseFields(name, doc)
              == Returned(Lookup(doc, "Status") == JString("OK") && |Lookup(doc, "Results").items| > 0)
    ensures !Lookup(doc, "Results").JNull? && !Lookup(doc, "Results").JList? ==>
              ValidateResponseFields(name, doc) == Threw(ClassCast)
  {
    assert Rules(KindOf(name).value) == [StatusIsOk, ResultsIsNonEmptyList];
    CheckPair(StatusIsOk, ResultsIsNonEmptyList, doc);
  }

  /**
   `MainStoreDetailsWithAuth` and `ActivatePharmCount`: a missing `Results`
   map throws (its keys are read after the null check only clears the
   verdict), an object is accepted iff it is non-empty, holds every required
   key and Status is "OK", anything else fails the cast to a map.
   */
  lemma StoreDetailKindsAccept(name: string, doc: Document, keys: seq<string>)
    requires (name == "MainStoreDetailsWithAuth" && keys == ["Name", "StoreDescription", "StoreId"])
          || (name == "ActivatePharmCount" && keys == ["CounterName", "CounterId"])
    ensures Lookup(doc, "Results").JNull? ==> ValidateResponseFields(name, doc) == Threw(NullPointer)
    ensures Lookup(doc, "Results").JObject? ==>
              ValidateResponseFields(name, doc)
              == Returned(&& Lookup(doc, "Status") == JString("OK")
                          && |Lookup(doc, "Results").fields| > 0
                          && forall i :: 0 <= i < |keys| ==> keys[i] in Lookup(doc, "Results").fields)
    ensures !Lookup(doc, "Results").JNull? && !Lookup(doc, "Results").JObject? ==>
              ValidateResponseFields(name, doc) == Threw(ClassCast)
  {
    assert Rules(KindOf(name).value) == [StatusIsOk, ResultsIsObjectWithKeys(keys)];
    CheckPair(StatusIsOk, ResultsIsObjectWithKeys(keys), doc);
  }

  /** `MainStoreDetailsWithAuth`: the `Results` object must hold `Name`, `StoreDescription` and `StoreId`. */
  lemma MainStoreDetailsAccepts(doc: Document)
    ensures Lookup(doc, "Results").JNull? ==> ValidateResponseFields("MainStoreDetailsWithAuth", doc) == Threw(NullPointer)
    ensures Lookup(doc, "Results").JObject? ==>
              ValidateResponseFields("MainStoreDetailsWithAuth", doc)
              == Returned(&& Lookup(doc, "Status") == JString("OK")
                          && "Name" in Lookup(doc, "Results").fields
                          && "StoreDescription" in Lookup(doc, "Results").fields
                          && "StoreId" in Lookup(doc, "Results").fields)
    ensures !Lookup(doc, "Results").JNull? && !Lookup(doc, "Results").JObject? ==>
              ValidateResponseFields("MainStoreDetailsWithAuth", doc) == Threw(ClassCast)
  {
    var keys := ["Name", "StoreDescription", "StoreId"];
    StoreDetailKindsAccept("MainStoreDetailsWithAuth", doc, keys);
    if Lookup(doc, "Results").JObject? {
      var m := Lookup(doc, "Results").fields;
      assert keys[0] == "Name" && keys[1] == "StoreDescription" && keys[2] == "StoreId";
      if "Name" in m {
        assert |m| > 0 by { assert "Name" in m.Keys; }
      }
    }
  }

  /** `ActivatePharmCount`: the `Results` object must hold `CounterName` and `CounterId`. */
  lemma ActivatePharmCountAccepts(doc: Document)
    ensures Lookup(doc, "Results").JNull? ==> ValidateResponseFields("ActivatePharmCount", doc) == Threw(NullPointer)
    ensures Lookup(doc, "Results").JObject? ==>
              ValidateResponseFields("ActivatePharmCount", doc)
              == Returned(&& Lookup(doc, "Status") == JString("OK")
                          && "CounterName" in Lookup(doc, "Results").fields
                          && "CounterId" in Lookup(doc, "Results").fields)
    ensures !Lookup(doc, "Results").JNull? && !Lookup(doc, "Results").JObject? ==>
              ValidateResponseFields("ActivatePharmCount", doc) == Threw(ClassCast)
  {
    var keys := ["CounterName", "CounterId"];
    StoreDetailKindsAccept("ActivatePharmCount", doc, keys);
    if Lookup(doc, "Results").JObject? {
      var m := Lookup(doc, "Results").fields;
      assert keys[0] == "CounterName" && keys[1] == "CounterId";
      if "CounterName" in m {
        assert |m| > 0 by { assert "CounterName" in m.Keys; }
      }
    }
  }

  /**
   `PharmacyStoresWithAuth`: a missing `Results` list throws when the loop
   iterates it, any other non-list fails the cast to a list; a list of objects
   is accepted iff it is non-empty, every element holds `StoreId` and `Name`,
   and Status is "OK".
   */
  lemma PharmacyStoresAccept(doc: Document)
    ensures Lookup(doc, "Results").JNull? ==> ValidateResponseFields("PharmacyStoresWithAuth", doc) == Threw(NullPointer)
    ensures Lookup(doc, "Results").JList? && (forall i :: 0 <= i < |Lookup(doc, "Results").items| ==> Lookup(doc, "Results").items[i].JObject?) ==>
              ValidateResponseFields("PharmacyStoresWithAuth", doc)
              == Returned(&& Lookup(doc, "Status") == JString("OK")
                          && |Lookup(doc, "Results").items| > 0
                          && forall i :: 0 <= i < |Lookup(doc, "Results").items| ==>
                               "StoreId" in Lookup(doc, "Results").items[i].fields
                               && "Name" in Lookup(doc, "Results").items[i].fields)
    ensures !Lookup(doc, "Results").JNull? && !Lookup(doc, "Results").JList? ==>
              ValidateResponseFields("PharmacyStoresWithAuth", doc) == Threw(ClassCast)
  {
    assert KindOf("PharmacyStoresWithAuth") == Some(PharmacyStores);
    CheckPair(StatusIsOk, ResultsEachHasKeys(["StoreId", "Name"]), doc);
    var keys := ["StoreId", "Name"];
    forall m: map<string, Json> ensures HasKeys(m, keys) <==> "StoreId" in m && "Name" in m {
      assert keys[0] == "StoreId" && keys[1] == "Name";
    }
  }
}
