/** The unused LocationBlock: an allow list and a deny list of access rules, each
    kept free of duplicates by its setter, and a location pattern. */
module LocationBlocks {
  import opened PyValues
  import opened Lists
  import opened Text

  /** The three fields `_allow`, `_deny` and `_location` as values. */
  datatype Block = Block(allow: seq<string>, deny: seq<string>, location: Option<string>)

  /** A new LocationBlock: both rule lists empty, no location. */
  const EmptyBlock: Block := Block([], [], None)

  /** Both rule lists are duplicate-free. */
  ghost predicate BlockWF(b: Block)
  {
    NoDup(b.allow) && NoDup(b.deny)
  }

  /** The block after an assignment and what the setter raised. */
  datatype Assigned = Assigned(block: Block, status: Status)

  /** The `allow` setter: None raises ValueError and a non-string TypeError, leaving
      the block as it was; a string not yet in the list is appended, one already
      there changes nothing. The rule's text is not checked. */
  function AssignAllow(b: Block, v: Value): (r: Assigned)
    ensures r.status == RequireString(v)
    ensures r.block.deny == b.deny && r.block.location == b.location
    ensures !v.Str? ==> r.block == b
    ensures v.Str? && v.s in b.allow ==> r.block.allow == b.allow
    ensures v.Str? && v.s !in b.allow ==> r.block.allow == b.allow + [v.s]
  {
    if RequireString(v).Raised? then Assigned(b, RequireString(v))
    else Assigned(b.(allow := AppendIfAbsent(b.allow, v.s)), Pass)
  }

  /** The `deny` setter: the same checks and de-duplication, on the deny list. */
  function AssignDeny(b: Block, v: Value): (r: Assigned)
    ensures r.status == RequireString(v)
    ensures r.block.allow == b.allow && r.block.location == b.location
    ensures !v.Str? ==> r.block == b
    ensures v.Str? && v.s in b.deny ==> r.block.deny == b.deny
    ensures v.Str? && v.s !in b.deny ==> r.block.deny == b.deny + [v.s]
  {
    if RequireString(v).Raised? then Assigned(b, RequireString(v))
    else Assigned(b.(deny := AppendIfAbsent(b.deny, v.s)), Pass)
  }

  /** Neither setter ever stores a duplicate. */
  lemma AssignKeepsWF(b: Block, v: Value)
    requires BlockWF(b)
    ensures BlockWF(AssignAllow(b, v).block) && BlockWF(AssignDeny(b, v).block)
  {
  }

  /** Any string is a rule, the empty one included: assigning it stores it verbatim. */
  lemma AnyRuleStored(b: Block, rule: string)
    ensures AssignAllow(b, Str(rule)).status == Pass && rule in AssignAllow(b, Str(rule)).block.allow
    ensures AssignDeny(b, Str(rule)).status == Pass && rule in AssignDeny(b, Str(rule)).block.deny
  {
    assert RequireString(Str(rule)) == Pass;
  }

  /** Assigning the same rule twice is the same as assigning it once. */
  lemma AssignIdempotent(b: Block, v: Value)
    ensures AssignAllow(AssignAllow(b, v).block, v).block == AssignAllow(b, v).block
    ensures AssignDeny(AssignDeny(b, v).block, v).block == AssignDeny(b, v).block
  {
    if v.Str? {
      AppendIfAbsentPresent(b.allow, v.s);
      AppendIfAbsentPresent(b.deny, v.s);
    }
  }

  /** The two lists are independent: an allow rule and a deny rule may be assigned
      in either order. */
  lemma AllowDenyCommute(b: Block, a: Value, d: Value)
    ensures AssignDeny(AssignAllow(b, a).block, d).block == AssignAllow(AssignDeny(b, d).block, a).block
  {
    var x := AssignDeny(AssignAllow(b, a).block, d).block;
    var y := AssignAllow(AssignDeny(b, d).block, a).block;
    assert x.allow == AssignAllow(b, a).block.allow == y.allow;
    assert x.deny == AssignDeny(b, d).block.deny == y.deny;
  }

  /** The `allow` property reads the allow list. */
  function AllowProperty(b: Block): seq<string>
  {
    b.allow
  }

  /** The `allow` property reads back every allow rule assigned, and the deny
      rules never show up in it. */
  lemma AllowRoundTrip(b: Block, v: Value, d: Value)
    ensures v.Str? ==> v.s in AllowProperty(AssignAllow(b, v).block)
    ensures AllowProperty(AssignDeny(b, d).block) == AllowProperty(b)
  {
    if v.Str? {
      assert RequireString(v) == Pass;
    }
  }

  /** The `deny` property as written: it is declared through the setter decorator of `allow`, which
      copies the `allow` property, so its getter reads the allow list. */
  function DenyPropertyAsWritten(b: Block): seq<string>
  {
    b.allow
  }

  /** The `deny` property as intended: it reads the deny list. */
  function DenyProperty(b: Block): seq<string>
  {
    b.deny
  }

  /** The `location` property as written: declared through the setter decorator of `allow` as well, so
      its getter also reads the allow list. */
  function LocationPropertyAsWritten(b: Block): seq<string>
  {
    b.allow
  }

  /** The `location` property as intended. */
  function LocationProperty(b: Block): Option<string>
  {
    b.location
  }

  /** The `location` setter as written: None raises ValueError; any other value
      reaches the type check, which names an undefined variable and raises
      NameError, so a location is never stored. */
  function AssignLocationAsWritten(b: Block, v: Value): (r: Assigned)
    ensures r.block == b && r.status.Raised?
    ensures r.status.error == (if v.Null? then ValueError else NameError)
  {
    if v.Null? then Assigned(b, Raised(ValueError)) else Assigned(b, Raised(NameError))
  }

  /** The `location` setter as intended: None raises ValueError, a non-string
      TypeError, and a string is stored unvalidated, replacing any earlier one. */
  function AssignLocation(b: Block, v: Value): (r: Assigned)
    ensures r.status == RequireString(v)
    ensures r.block.allow == b.allow && r.block.deny == b.deny
    ensures v.Str? ==> r.block.location == Some(v.s)
    ensures !v.Str? ==> r.block == b
  {
    if RequireString(v).Raised? then Assigned(b, RequireString(v))
    else Assigned(b.(location := Some(v.s)), Pass)
  }

  /** As written, a deny rule cannot be read back: on a new block the `deny`
      property stays empty while the rule sits in the deny list. */
  lemma DenyReadsAllow()
    ensures var b := AssignDeny(EmptyBlock, Str("10.0.0.1")).block;
      DenyPropertyAsWritten(b) == [] && b.deny == ["10.0.0.1"]
  {
  }

  /** As intended, the `deny` property reads back every deny rule assigned, and
      only the string rules assigned; the allow rules never show up in it. */
  lemma DenyRoundTrip(b: Block, v: Value, a: Value)
    ensures v.Str? ==> v.s in DenyProperty(AssignDeny(b, v).block)
    ensures DenyProperty(AssignAllow(b, a).block) == DenyProperty(b)
  {
    if v.Str? {
      assert RequireString(v) == Pass;
    }
  }

  /** As written, the `location` property of a new block reads the allow list, and
      assigning a location raises NameError and stores nothing. */
  lemma LocationNeverStored()
    ensures var r := AssignLocationAsWritten(EmptyBlock, Str("/"));
      r.status == Raised(NameError) && LocationProperty(r.block) == None
    ensures LocationPropertyAsWritten(AssignAllow(EmptyBlock, Str("all")).block) == ["all"]
  {
  }

  /** As intended, a string location reads back as assigned and a later one
      replaces it. */
  lemma LocationRoundTrip(b: Block, p: string, q: string)
    ensures LocationProperty(AssignLocation(b, Str(p)).block) == Some(p)
    ensures AssignLocation(AssignLocation(b, Str(p)).block, Str(q)).block == AssignLocation(b, Str(q)).block
  {
    assert RequireString(Str(p)) == Pass && RequireString(Str(q)) == Pass;
  }

  class LocationBlock {
    var allow: seq<string>
    var deny: seq<string>
    var location: Option<string>

    /** The fields as a value. */
    function Rec(): Block
      reads this
    {
      Block(allow, deny, location)
    }

    ghost predicate Valid()
      reads this
    {
      BlockWF(Rec())
    }

    /** `LocationBlock()`: empty rule lists, no location. */
    constructor ()
      ensures Rec() == EmptyBlock && Valid()
    {
      allow := [];
      deny := [];
      location := None;
    }

    /** The `allow` setter. */
    method SetAllow(rule: Value) returns (st: Status)
      requires Valid()
      modifies this
      ensures Valid()
      ensures Assigned(Rec(), st) == AssignAllow(old(Rec()), rule)
    {
      st := RequireString(rule);
      if st == Pass && rule.s !in allow {
        allow := allow + [rule.s];
      }
      AssignKeepsWF(old(Rec()), rule);
    }

    /** The `deny` setter (the setter runs as written; only its getter is
        misdeclared). */
    method SetDeny(rule: Value) returns (st: Status)
      requires Valid()
      modifies this
      ensures Valid()
      ensures Assigned(Rec(), st) == AssignDeny(old(Rec()), rule)
    {
      st := RequireString(rule);
      if st == Pass && rule.s !in deny {
        deny := deny + [rule.s];
      }
      AssignKeepsWF(old(Rec()), rule);
    }

    /** The `location` setter as intended. */
    method SetLocation(value: Value) returns (st: Status)
      requires Valid()
      modifies this
      ensures Valid()
      ensures Assigned(Rec(), st) == AssignLocation(old(Rec()), value)
    {
      st := RequireString(value);
      if st == Pass {
        location := Some(value.s);
      }
    }
  }
}
