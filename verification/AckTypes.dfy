/** The runtime's own types that the resources embed: references to other resources and conditions. */
module AckTypes {
  import opened Nilable

  datatype RefFrom = RefFrom(name: Option<string>, namespace: Option<string>)
  datatype Ref = Ref(from: Option<RefFrom>)

  datatype ResourceMetadata = ResourceMetadata(arn: Option<string>, region: Option<string>,
                                               partition: Option<string>, ownerAccountID: Option<string>)

  const NO_METADATA := ResourceMetadata(None, None, None, None)

  datatype ConditionType = Terminal | Recoverable | ResourceSynced | OtherType(name: string)
  datatype ConditionStatus = True | False | Unknown

  datatype ConditionValue = ConditionValue(ctype: ConditionType, status: ConditionStatus,
                                           message: Option<string>, reason: Option<string>)

  /** Some condition of the type is True. */
  predicate Has(cs: seq<ConditionValue>, t: ConditionType) {
    exists i :: 0 <= i < |cs| && cs[i].ctype == t && cs[i].status == True
  }

  /** A condition object; status lists hold pointers to these. */
  class Condition {
    var ctype: ConditionType
    var status: ConditionStatus
    var message: Option<string>
    var reason: Option<string>

    constructor (v: ConditionValue)
      ensures Value() == v
    {
      ctype, status, message, reason := v.ctype, v.status, v.message, v.reason;
    }

    ghost function Value(): ConditionValue
      reads this
    {
      ConditionValue(ctype, status, message, reason)
    }
  }

  /** What a list of condition pointers shows. */
  ghost function Values(cs: seq<Condition>): seq<ConditionValue>
    reads cs
  {
    seq(|cs|, i requires 0 <= i < |cs| reads cs => cs[i].Value())
  }

  ghost predicate AllDistinct(cs: seq<Condition>) {
    forall i, j :: 0 <= i < j < |cs| ==> cs[i] != cs[j]
  }

  /** The conditions part of `FileSystemStatus.DeepCopyInto`: a new object for every element. */
  method DeepCopyConditions(source: seq<Condition>) returns (copy: seq<Condition>)
    ensures AllDistinct(copy) && forall i :: 0 <= i < |copy| ==> fresh(copy[i])
    ensures Values(copy) == Values(source)
  {
    copy := [];
    for i := 0 to |source|
      invariant |copy| == i && AllDistinct(copy)
      invariant forall j :: 0 <= j < i ==> fresh(copy[j])
      invariant forall j :: 0 <= j < i ==> copy[j].Value() == source[j].Value()
    {
      var c := source[i];
      var d := new Condition(ConditionValue(c.ctype, c.status, c.message, c.reason));
      copy := copy + [d];
    }
  }
}
