/**
 * The instance lister of krishna.py (`get_ec2_instances`): every instance the
 * cloud listing yields is projected, in order, into a flat nine-field record;
 * the human-readable name comes from the first tag keyed "Name". Any failure
 * of the listing discards everything and yields the empty sequence.
 */
module Ec2Listing {
  import opened Wrappers

  /** A key/value label attached to an instance. */
  datatype Tag = Tag(key: string, value: string)

  /** The provider's state object, reduced to its `Name` entry, the only one read. */
  datatype InstanceState = InstanceState(name: string)

  /** The attributes of one listed instance that the lister reads. */
  datatype Instance = Instance(
    tags: Option<seq<Tag>>,       // None when the instance carries no tags at all
    id: string,
    instanceType: string,
    state: InstanceState,
    publicIpAddress: Option<string>,
    privateIpAddress: Option<string>,
    keyName: Option<string>,
    platform: Option<string>,
    architecture: string)

  /**
   * What the listing query delivers: either the whole result, or the
   * instances received before an exception was raised (authentication,
   * network, permissions, a malformed response: all of them are one outcome).
   */
  datatype Listing =
    | Complete(instances: seq<Instance>)
    | Interrupted(instances: seq<Instance>)

  /** A Python value stored in a record (and later in a cell): a string or `None`. */
  datatype FieldValue = Str(s: string) | Null

  /** The flat record built for one instance, fields in the order of the dict literal. */
  datatype InstanceRecord = InstanceRecord(
    name: string,
    instanceId: string,
    instanceType: string,
    state: string,
    publicIp: Option<string>,
    privateIp: Option<string>,
    keyName: Option<string>,
    platform: Option<string>,
    architecture: string)

  /** The number of fields of a record. */
  const FieldCount: nat := 9

  const NameKey: string := "Name"
  const UnknownName: string := "Unknown"

  /** The first tag of `tags` whose key is `key` (a first-match generator under `next`). */
  function FirstTagWithKey(tags: seq<Tag>, key: string): (r: Option<Tag>)
    ensures r.None? <==> forall k :: 0 <= k < |tags| ==> tags[k].key != key
    ensures r.Some? ==>
      exists k :: 0 <= k < |tags| && tags[k] == r.value && tags[k].key == key &&
        forall i :: 0 <= i < k ==> tags[i].key != key
  {
    if tags == [] then None
    else if tags[0].key == key then Some(tags[0])
    else
      var r := FirstTagWithKey(tags[1..], key);
      assert forall k :: 1 <= k < |tags| ==> tags[k] == tags[1..][k - 1];
      r
  }

  /** The record's Name: the value of the first "Name" tag, or "Unknown"; a missing tag list counts as empty. */
  function ResolveName(tags: Option<seq<Tag>>): string
  {
    match FirstTagWithKey(tags.GetOr([]), NameKey)
    case Some(t) => t.value
    case None => UnknownName
  }

  /**
   * Name resolution, both directions: the name is the value of the first tag
   * keyed "Name" when there is one, and "Unknown" when there is none.
   */
  lemma ResolveNameSpec(tags: Option<seq<Tag>>)
    ensures var ts := tags.GetOr([]);
      && ((forall k :: 0 <= k < |ts| ==> ts[k].key != NameKey) ==> ResolveName(tags) == UnknownName)
      && forall k :: 0 <= k < |ts| && ts[k].key == NameKey &&
                     (forall i :: 0 <= i < k ==> ts[i].key != NameKey)
                     ==> ResolveName(tags) == ts[k].value
  {
    var ts := tags.GetOr([]);
    var r := FirstTagWithKey(ts, NameKey);
    if r.Some? {
      var k :| 0 <= k < |ts| && ts[k] == r.value && ts[k].key == NameKey &&
        forall i :: 0 <= i < k ==> ts[i].key != NameKey;
      forall k' | 0 <= k' < |ts| && ts[k'].key == NameKey && (forall i :: 0 <= i < k' ==> ts[i].key != NameKey)
        ensures ResolveName(tags) == ts[k'].value
      {
        assert k' == k;
      }
    }
  }

  /** An untagged instance, or one tagged only with other keys, is named "Unknown". */
  lemma UntaggedIsUnknown(inst: Instance)
    requires inst.tags.None? || forall t :: t in inst.tags.value ==> t.key != NameKey
    ensures InstanceInfo(inst).name == UnknownName
  {
    ResolveNameSpec(inst.tags);
    var ts := inst.tags.GetOr([]);
    assert forall k :: 0 <= k < |ts| ==> ts[k] in ts;
  }

  /** The record (the dict literal) built for one instance. */
  function InstanceInfo(inst: Instance): InstanceRecord
  {
    InstanceRecord(
      ResolveName(inst.tags),
      inst.id,
      inst.instanceType,
      inst.state.name,
      inst.publicIpAddress,
      inst.privateIpAddress,
      inst.keyName,
      inst.platform,
      inst.architecture)
  }

  function OptionalField(o: Option<string>): FieldValue
  {
    match o
    case Some(s) => Str(s)
    case None => Null
  }

  /** The record as the dict's (key, value) items, in the literal's insertion order. */
  function Items(r: InstanceRecord): seq<(string, FieldValue)>
  {
    [ ("Name", Str(r.name)),
      ("Instance ID", Str(r.instanceId)),
      ("Instance Type", Str(r.instanceType)),
      ("State", Str(r.state)),
      ("Public IP", OptionalField(r.publicIp)),
      ("Private IP", OptionalField(r.privateIp)),
      ("Key Name", OptionalField(r.keyName)),
      ("Platform", OptionalField(r.platform)),
      ("Architecture", Str(r.architecture)) ]
  }

  /**
   * `row.values()`: the record's nine field values in key order, that is the
   * second components of `Items(r)` (`HeadersNameFields` proves it), written
   * out directly so that proofs about rows need not unfold `Items`.
   */
  function Values(r: InstanceRecord): (vs: seq<FieldValue>)
    ensures |vs| == FieldCount
  {
    [Str(r.name), Str(r.instanceId), Str(r.instanceType), Str(r.state),
     OptionalField(r.publicIp), OptionalField(r.privateIp), OptionalField(r.keyName),
     OptionalField(r.platform), Str(r.architecture)]
  }

  /**
   * The row one instance produces, column by column: the resolved name, then
   * the attributes copied verbatim; an absent optional attribute stays `None`.
   */
  lemma InstanceRow(inst: Instance)
    ensures var vs := Values(InstanceInfo(inst));
      && vs[0] == Str(ResolveName(inst.tags))
      && vs[1] == Str(inst.id) && vs[2] == Str(inst.instanceType) && vs[3] == Str(inst.state.name)
      && (vs[4] == Null <==> inst.publicIpAddress.None?)
      && (inst.publicIpAddress.Some? ==> vs[4] == Str(inst.publicIpAddress.value))
      && (vs[5] == Null <==> inst.privateIpAddress.None?)
      && (inst.privateIpAddress.Some? ==> vs[5] == Str(inst.privateIpAddress.value))
      && (vs[6] == Null <==> inst.keyName.None?)
      && (inst.keyName.Some? ==> vs[6] == Str(inst.keyName.value))
      && (vs[7] == Null <==> inst.platform.None?)
      && (inst.platform.Some? ==> vs[7] == Str(inst.platform.value))
      && vs[8] == Str(inst.architecture)
  {
  }

  /**
   * Reads nine field values back into a record: the inverse of `Values`.
   * Required fields must be strings; an optional field is absent exactly
   * when its value is `None`.
   */
  function ParseValues(vs: seq<FieldValue>): (r: Option<InstanceRecord>)
    ensures r.Some? ==> |vs| == FieldCount && Values(r.value) == vs
  {
    if |vs| == FieldCount && vs[0].Str? && vs[1].Str? && vs[2].Str? && vs[3].Str? && vs[8].Str? then
      var rec := InstanceRecord(vs[0].s, vs[1].s, vs[2].s, vs[3].s,
                                OptionalOf(vs[4]), OptionalOf(vs[5]), OptionalOf(vs[6]),
                                OptionalOf(vs[7]), vs[8].s);
      assert Values(rec) == vs by {
        assert forall j :: 0 <= j < 9 ==> Values(rec)[j] == vs[j];
      }
      Some(rec)
    else None
  }

  function OptionalOf(v: FieldValue): (o: Option<string>)
    ensures OptionalField(o) == v
  {
    match v
    case Str(s) => Some(s)
    case Null => None
  }

  /** Every record's values read back as that record: no information is lost in a row. */
  lemma ParseValuesInverse(r: InstanceRecord)
    ensures ParseValues(Values(r)) == Some(r)
  {
    var vs := Values(r);
    assert vs[0].Str? && vs[1].Str? && vs[2].Str? && vs[3].Str? && vs[8].Str?;
    assert OptionalOf(vs[4]) == r.publicIp by { assert vs[4] == OptionalField(r.publicIp); }
    assert OptionalOf(vs[5]) == r.privateIp by { assert vs[5] == OptionalField(r.privateIp); }
    assert OptionalOf(vs[6]) == r.keyName by { assert vs[6] == OptionalField(r.keyName); }
    assert OptionalOf(vs[7]) == r.platform by { assert vs[7] == OptionalField(r.platform); }
  }

  /**
   * `get_ec2_instances` over the listing's outcome: one record per instance,
   * in listing order, or the empty sequence when the listing failed at any
   * point (records already built are discarded, no error escapes).
   */
  method GetInstances(listing: Listing) returns (records: seq<InstanceRecord>)
    ensures listing.Interrupted? ==> records == []
    ensures listing.Complete? ==> |records| == |listing.instances|
    ensures listing.Complete? ==>
      forall i :: 0 <= i < |records| ==> records[i] == InstanceInfo(listing.instances[i])
  {
    var instances := listing.instances;
    var instanceData: seq<InstanceRecord> := [];
    var n := 0;
    while n < |instances|
      invariant 0 <= n <= |instances|
      invariant |instanceData| == n
      invariant forall i :: 0 <= i < n ==> instanceData[i] == InstanceInfo(instances[i])
    {
      var info := InstanceInfo(instances[n]);
      instanceData := instanceData + [info];
      n := n + 1;
    }
    if listing.Interrupted? {
      // the exception handler: report and fall back to the empty list
      return [];
    }
    records := instanceData;
  }
}
