/** The principal record of src/principals_util.py: the three fields a
    tenant controller is described by, the identifier drawn from a
    class-level counter, and the dictionary the record is serialised to and
    rebuilt from. */
module PrincipalsUtil {
  import opened Wrappers
  import opened Lists

  /** A principal: the port numbers it may physically control, and the
      address and port its controller listens on. `id` is only used
      inside the hypervisor. */
  datatype PrincipalRecord = PrincipalRecord(
    id: nat,
    physicalPortSet: set<int>,
    listeningIpAddr: string,
    listeningPortAddr: int)

  /** The three fields a principal is built from, without its id. */
  datatype PrincipalFields = PrincipalFields(
    physicalPortSet: set<int>,
    listeningIpAddr: string,
    listeningPortAddr: int)

  function FieldsOf(p: PrincipalRecord): PrincipalFields {
    PrincipalFields(p.physicalPortSet, p.listeningIpAddr, p.listeningPortAddr)
  }

  // ---------------------------------------------------------------------
  // Construction: `Principal.__init__` and the class-level id counter
  // ---------------------------------------------------------------------

  /** The number of positional arguments `Principal.__init__` declares
      after `self`. */
  const PRINCIPAL_INIT_ARITY: nat := 3

  /** Raised by Python when a call's argument count does not match. */
  datatype ConstructionError = ArityError(expected: nat, given: nat)

  /** Python's binding of a call's positional arguments to the parameters
      of `Principal.__init__`: any count but three raises before the body
      runs. */
  function BindInitArguments(given: nat): (r: Outcome<ConstructionError>)
    ensures r.Pass? <==> given == PRINCIPAL_INIT_ARITY
    ensures r.Fail? ==> r.error.given == given && r.error.expected == PRINCIPAL_INIT_ARITY
  {
    if given == PRINCIPAL_INIT_ARITY then Pass else Fail(ArityError(PRINCIPAL_INIT_ARITY, given))
  }

  /** The subclass constructors as written call the base constructor with
      the switch in front of the three fields: four arguments. */
  function SubclassSuperInitAsWritten(fields: PrincipalFields, nextId: nat): (r: Result<PrincipalRecord, ConstructionError>)
  {
    var argumentsPassed := 4;  // pluribus_switch, physical_port_set, listening_ip_addr, listening_port_addr
    match BindInitArguments(argumentsPassed)
    case Fail(e) => Err(e)
    case Pass =>
      Ok(PrincipalRecord(nextId, fields.physicalPortSet, fields.listeningIpAddr, fields.listeningPortAddr))
  }

  /** As written, constructing any subclass principal fails. */
  lemma SubclassSuperInitAsWrittenFails(fields: PrincipalFields, nextId: nat)
    ensures SubclassSuperInitAsWritten(fields, nextId) == Err(ArityError(3, 4))
  {
  }

  /** The class attribute `Principal.STATIC_PRINCIPAL_IDENTIFIER`: the id the
      next principal receives. `issued` records the ids handed out so far. */
  class PrincipalIdCounter {
    var next: nat
    ghost var issued: seq<int>

    ghost predicate Valid()
      reads this
    {
      issued == Range(0, next)
    }

    constructor ()
      ensures Valid() && next == 0 && issued == []
    {
      next := 0;
      issued := [];
    }

    /** `Principal.__init__` called with the three fields: stores them
        unchanged, takes the counter's value as the id and increments the
        counter. */
    method NewPrincipal(fields: PrincipalFields) returns (p: PrincipalRecord)
      requires Valid()
      modifies this
      ensures Valid()
      ensures FieldsOf(p) == fields
      ensures p.id == old(next) && next == old(next) + 1
      ensures issued == old(issued) + [p.id]
    {
      p := PrincipalRecord(next, fields.physicalPortSet, fields.listeningIpAddr, fields.listeningPortAddr);
      next := next + 1;
      issued := issued + [p.id];
    }

    /** `principal_from_json_dict`: rebuilds the fields from the dictionary
        and constructs a new principal, which takes a fresh id. A
        dictionary that cannot be read leaves the counter unchanged. */
    method PrincipalFromJsonDict(d: JsonDict) returns (r: Result<PrincipalRecord, DictError>)
      requires Valid()
      modifies this
      ensures Valid()
      ensures r.Ok? <==> ParsePrincipalFields(d).Ok?
      ensures r.Ok? ==> FieldsOf(r.value) == ParsePrincipalFields(d).value && r.value.id == old(next)
                        && next == old(next) + 1 && issued == old(issued) + [r.value.id]
      ensures r.Err? ==> r.error == ParsePrincipalFields(d).error && next == old(next) && issued == old(issued)
    {
      var parsed := ParsePrincipalFields(d);
      if parsed.Err? {
        return Err(parsed.error);
      }
      var p := NewPrincipal(parsed.value);
      return Ok(p);
    }
  }

  /** The counter hands out 0, 1, 2, ... in creation order, so the ids
      issued so far are distinct and strictly increasing. */
  lemma {:induction false} IssuedIdsIncreasing(c: PrincipalIdCounter)
    requires c.Valid()
    ensures StrictlyIncreasing(c.issued)
    ensures forall i :: 0 <= i < |c.issued| ==> c.issued[i] == i
    ensures forall x :: x in c.issued <==> 0 <= x < c.next
  {
  }

  // ---------------------------------------------------------------------
  // Serialisation at dictionary level (`to_json_str` before `json.dumps`)
  // ---------------------------------------------------------------------

  /** The JSON values the serialised principal is made of. */
  datatype JsonValue = JInt(n: int) | JString(s: string) | JList(items: seq<JsonValue>)

  type JsonDict = map<string, JsonValue>

  const PHYSICAL_PORTS_KEY: string := "physical_ports"
  const LISTENING_IP_ADDR_KEY: string := "listening_ip_addr"
  const LISTENING_PORT_ADDR_KEY: string := "listening_port_addr"

  function JsonInts(xs: seq<int>): (r: seq<JsonValue>)
    ensures |r| == |xs|
    ensures forall i :: 0 <= i < |xs| ==> r[i] == JInt(xs[i])
  {
    if xs == [] then [] else [JInt(xs[0])] + JsonInts(xs[1..])
  }

  /** The dictionary `to_json_str` serialises: the port set as a list, the
      two listening fields, and no id. */
  function ToDict(p: PrincipalRecord): (d: JsonDict)
    ensures d.Keys == {PHYSICAL_PORTS_KEY, LISTENING_IP_ADDR_KEY, LISTENING_PORT_ADDR_KEY}
  {
    map[PHYSICAL_PORTS_KEY := JList(JsonInts(SortedList(p.physicalPortSet))),
        LISTENING_IP_ADDR_KEY := JString(p.listeningIpAddr),
        LISTENING_PORT_ADDR_KEY := JInt(p.listeningPortAddr)]
  }

  /** The serialised form does not depend on the id. */
  lemma ToDictIgnoresId(p: PrincipalRecord, q: PrincipalRecord)
    requires FieldsOf(p) == FieldsOf(q)
    ensures ToDict(p) == ToDict(q)
  {
  }

  /** Why a dictionary does not describe a principal: a missing key
      (Python's KeyError), or a value of a kind the record cannot hold. */
  datatype DictError = KeyError(key: string) | UnsupportedValue(key: string)

  /** The integers of a list whose items are all integers. */
  function IntItems(items: seq<JsonValue>): (r: Option<seq<int>>)
    ensures r.Some? ==> |r.value| == |items| && forall i :: 0 <= i < |items| ==> items[i] == JInt(r.value[i])
  {
    if items == [] then Some([])
    else if !items[0].JInt? then None
    else
      match IntItems(items[1..])
      case None => None
      case Some(rest) => Some([items[0].n] + rest)
  }

  lemma {:induction false} IntItemsNoneIff(items: seq<JsonValue>)
    ensures IntItems(items).None? <==> exists i :: 0 <= i < |items| && !items[i].JInt?
  {
    if items != [] && items[0].JInt? {
      IntItemsNoneIff(items[1..]);
      assert forall i :: 1 <= i < |items| ==> items[i] == items[1..][i - 1];
      if IntItems(items[1..]).None? {
        var i :| 0 <= i < |items[1..]| && !items[1..][i].JInt?;
        assert !items[i + 1].JInt?;
      }
    }
  }

  lemma {:induction false} IntItemsOfJsonInts(xs: seq<int>)
    ensures IntItems(JsonInts(xs)) == Some(xs)
  {
    if xs != [] {
      IntItemsOfJsonInts(xs[1..]);
      var js := JsonInts(xs);
      assert js[1..] == JsonInts(xs[1..]);
      assert js[0] == JInt(xs[0]);
      assert IntItems(js) == Some([xs[0]] + xs[1..]);
      assert [xs[0]] + xs[1..] == xs;
    }
  }

  /** The fields `principal_from_json_dict` reads, in the order Python
      evaluates the constructor's arguments: the port list (made a set),
      the listening address, the listening port. */
  function ParsePrincipalFields(d: JsonDict): (r: Result<PrincipalFields, DictError>) {
    if PHYSICAL_PORTS_KEY !in d then Err(KeyError(PHYSICAL_PORTS_KEY))
    else if !d[PHYSICAL_PORTS_KEY].JList? || IntItems(d[PHYSICAL_PORTS_KEY].items).None? then
      Err(UnsupportedValue(PHYSICAL_PORTS_KEY))
    else if LISTENING_IP_ADDR_KEY !in d then Err(KeyError(LISTENING_IP_ADDR_KEY))
    else if !d[LISTENING_IP_ADDR_KEY].JString? then Err(UnsupportedValue(LISTENING_IP_ADDR_KEY))
    else if LISTENING_PORT_ADDR_KEY !in d then Err(KeyError(LISTENING_PORT_ADDR_KEY))
    else if !d[LISTENING_PORT_ADDR_KEY].JInt? then Err(UnsupportedValue(LISTENING_PORT_ADDR_KEY))
    else
      var ports := IntItems(d[PHYSICAL_PORTS_KEY].items).value;
      Ok(PrincipalFields((set x | x in ports), d[LISTENING_IP_ADDR_KEY].s, d[LISTENING_PORT_ADDR_KEY].n))
  }

  /** Rebuilding a serialised principal gives back its three fields. */
  lemma PrincipalRoundTrip(p: PrincipalRecord)
    ensures ParsePrincipalFields(ToDict(p)) == Ok(FieldsOf(p))
  {
    var sorted := SortedList(p.physicalPortSet);
    IntItemsOfJsonInts(sorted);
    SortedListMembers(p.physicalPortSet);
    assert (set x | x in sorted) == p.physicalPortSet;
  }

  /** A dictionary is accepted exactly when it has the three keys with
      values of the right kinds; the result holds the set of the listed
      ports and the two listening fields. */
  lemma ParseAcceptsIff(d: JsonDict)
    ensures ParsePrincipalFields(d).Ok? <==>
              && PHYSICAL_PORTS_KEY in d && d[PHYSICAL_PORTS_KEY].JList?
              && (forall i :: 0 <= i < |d[PHYSICAL_PORTS_KEY].items| ==> d[PHYSICAL_PORTS_KEY].items[i].JInt?)
              && LISTENING_IP_ADDR_KEY in d && d[LISTENING_IP_ADDR_KEY].JString?
              && LISTENING_PORT_ADDR_KEY in d && d[LISTENING_PORT_ADDR_KEY].JInt?
    ensures ParsePrincipalFields(d).Ok? ==>
              && (forall x :: x in ParsePrincipalFields(d).value.physicalPortSet <==>
                    JInt(x) in d[PHYSICAL_PORTS_KEY].items)
              && ParsePrincipalFields(d).value.listeningIpAddr == d[LISTENING_IP_ADDR_KEY].s
              && ParsePrincipalFields(d).value.listeningPortAddr == d[LISTENING_PORT_ADDR_KEY].n
  {
    if PHYSICAL_PORTS_KEY in d && d[PHYSICAL_PORTS_KEY].JList? {
      var items := d[PHYSICAL_PORTS_KEY].items;
      IntItemsNoneIff(items);
      if IntItems(items).Some? {
        var ports := IntItems(items).value;
        forall x
          ensures x in ports <==> JInt(x) in items
        {
          if x in ports {
            var i :| 0 <= i < |ports| && ports[i] == x;
            assert items[i] == JInt(x);
          }
          if JInt(x) in items {
            var i :| 0 <= i < |items| && items[i] == JInt(x);
            assert ports[i] == x;
          }
        }
      }
    }
  }

  /** A missing key is reported as the first missing one in the order the
      constructor's arguments are read: the keys before it are present
      with values that were accepted. */
  lemma MissingKeyReported(d: JsonDict)
    ensures PHYSICAL_PORTS_KEY !in d ==> ParsePrincipalFields(d) == Err(KeyError(PHYSICAL_PORTS_KEY))
    ensures PHYSICAL_PORTS_KEY in d && d[PHYSICAL_PORTS_KEY].JList? && IntItems(d[PHYSICAL_PORTS_KEY].items).Some?
            && LISTENING_IP_ADDR_KEY !in d ==>
              ParsePrincipalFields(d) == Err(KeyError(LISTENING_IP_ADDR_KEY))
    ensures PHYSICAL_PORTS_KEY in d && d[PHYSICAL_PORTS_KEY].JList? && IntItems(d[PHYSICAL_PORTS_KEY].items).Some?
            && LISTENING_IP_ADDR_KEY in d && d[LISTENING_IP_ADDR_KEY].JString?
            && LISTENING_PORT_ADDR_KEY !in d ==>
              ParsePrincipalFields(d) == Err(KeyError(LISTENING_PORT_ADDR_KEY))
    ensures ParsePrincipalFields(d).Err? && ParsePrincipalFields(d).error.KeyError? ==>
              ParsePrincipalFields(d).error.key !in d
  {
  }
}
