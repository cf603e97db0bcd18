/** Selecting the alert policies of a filter (checkAlertPoicyTbl). */
module AlertPolicy {
  import opened Types
  import opened Tables

  datatype AlertPolicyTbl = AlertPolicyTbl(
    alertPolicyGroupNum: uint8,
    enableAlert: uint8,
    policyAction: uint8,
    channelNo: uint8,
    destinationSel: uint8,
    eventSpecificAlertStr: string)

  const POLICY_SPEC := TableSpec("AlertPolicyTable", 15, POLICY_KINDS)

  const POLICY_KINDS: map<string, Kind> := map[
    "AlertPolicyGroupNum" := U8, "EnableAlert" := U8, "PolicyAction" := U8, "ChannelNo" := U8,
    "DestinationSel" := U8, "EventSpecificAlertStr" := Text, "AlertStingkey" := U8]

  /** An object path under the policy table, with the properties it answered or None. */
  datatype PolicyReply = PolicyReply(path: string, properties: Option<Object>)

  const CHILD_PREFIX := "/xyz/openbmc_project/PefAlertManager/AlertPolicyTable/"

  datatype PolicyColumns = PolicyColumns(
    groupNums: seq<uint8>,
    enableAlert: Option<seq<uint8>>,
    policyAction: Option<seq<uint8>>,
    channelNo: Option<seq<uint8>>,
    destinationSel: Option<seq<uint8>>,
    eventSpecificAlertStr: Option<seq<string>>)

  function ByteProperty(o: Object, p: string): Option<seq<uint8>> {
    if p in o && o[p].Bytes? then Some(o[p].bytes) else None
  }

  function TextProperty(o: Object, p: string): Option<seq<string>> {
    if p in o && o[p].Texts? then Some(o[p].texts) else None
  }

  function ReadPolicies(o: Object): PolicyColumns {
    var groups := ByteProperty(o, "AlertPolicyGroupNum");
    PolicyColumns(
      if groups.Some? then groups.value else [],
      ByteProperty(o, "EnableAlert"), ByteProperty(o, "PolicyAction"), ByteProperty(o, "ChannelNo"),
      ByteProperty(o, "DestinationSel"), TextProperty(o, "EventSpecificAlertStr"))
  }

  /** A property's element at idx, or the zero a missing one leaves in the struct. */
  function Field(column: Option<seq<uint8>>, idx: nat): uint8 {
    if column.Some? && idx < |column.value| then column.value[idx] else 0
  }

  function PolicyAt(c: PolicyColumns, idx: nat): AlertPolicyTbl
    requires idx < |c.groupNums|
  {
    AlertPolicyTbl(
      c.groupNums[idx], Field(c.enableAlert, idx), Field(c.policyAction, idx), Field(c.channelNo, idx),
      Field(c.destinationSel, idx),
      if c.eventSpecificAlertStr.Some? && idx < |c.eventSpecificAlertStr.value|
      then c.eventSpecificAlertStr.value[idx] else "")
  }

  /** Entry idx is in the group and enabled; an object without EnableAlert does not disable it. */
  predicate Applies(c: PolicyColumns, idx: nat, group: int) {
    && idx < |c.groupNums|
    && c.groupNums[idx] == CastU8(group)
    && (c.enableAlert.Some? ==> idx < |c.enableAlert.value| && c.enableAlert.value[idx] == 1)
  }

  function PoliciesUpTo(c: PolicyColumns, n: nat, group: int): seq<AlertPolicyTbl> {
    if n == 0 then []
    else PoliciesUpTo(c, n - 1, group) + if Applies(c, n - 1, group) then [PolicyAt(c, n - 1)] else []
  }

  /** The policy table object was answered and lies under the table. */
  predicate Readable(r: PolicyReply) {
    CHILD_PREFIX <= r.path && r.properties.Some?
  }

  function ReplyPolicies(r: PolicyReply, group: int): seq<AlertPolicyTbl> {
    if Readable(r) then
      var c := ReadPolicies(r.properties.value);
      PoliciesUpTo(c, |c.groupNums|, group)
    else []
  }

  function RepliesUpTo(replies: seq<PolicyReply>, n: nat, group: int): seq<AlertPolicyTbl>
    requires n <= |replies|
  {
    if n == 0 then [] else RepliesUpTo(replies, n - 1, group) + ReplyPolicies(replies[n - 1], group)
  }

  /** The policies of a group; None stands for a failed mapper call. */
  function Selected(replies: Option<seq<PolicyReply>>, group: int): seq<AlertPolicyTbl> {
    if group <= 0 || replies.None? then [] else RepliesUpTo(replies.value, |replies.value|, group)
  }

  method CheckAlertPolicyTbl(alertPolicyNo: int, replies: Option<seq<PolicyReply>>)
    returns (matchedAltPolEntries: seq<AlertPolicyTbl>)
    ensures matchedAltPolEntries == Selected(replies, alertPolicyNo)
  {
    matchedAltPolEntries := [];
    if alertPolicyNo <= 0 || replies.None? {
      return;
    }
    var policyObjs := replies.value;
    for k := 0 to |policyObjs|
      invariant matchedAltPolEntries == RepliesUpTo(policyObjs, k, alertPolicyNo)
    {
      if !(CHILD_PREFIX <= policyObjs[k].path) || policyObjs[k].properties.None? {
        continue;
      }
      var c := ReadPolicies(policyObjs[k].properties.value);
      ghost var before := matchedAltPolEntries;
      for entryIndex := 0 to |c.groupNums|
        invariant matchedAltPolEntries == before + PoliciesUpTo(c, entryIndex, alertPolicyNo)
      {
        if c.enableAlert.Some? {
          if entryIndex >= |c.enableAlert.value| || c.enableAlert.value[entryIndex] != 1 {
            continue;
          }
        }
        if c.groupNums[entryIndex] != CastU8(alertPolicyNo) {
          continue;
        }
        matchedAltPolEntries := matchedAltPolEntries + [PolicyAt(c, entryIndex)];
      }
    }
  }

  /** Element i of a column of numbers; 0 when it is missing, no such column or too short. */
  function ByteOrZero(o: Object, p: string, i: nat): uint8 {
    if p in o && o[p].Bytes? && i < |o[p].bytes| then o[p].bytes[i] else 0
  }

  /** Entry i of an answered object under the table is the policy, in the group and, where the
      object has an EnableAlert column, enabled. */
  ghost predicate FoundAt(r: PolicyReply, group: int, i: nat, policy: AlertPolicyTbl) {
    && CHILD_PREFIX <= r.path
    && r.properties.Some?
    && var o := r.properties.value;
       && "AlertPolicyGroupNum" in o && o["AlertPolicyGroupNum"].Bytes? && i < |o["AlertPolicyGroupNum"].bytes|
       && policy.alertPolicyGroupNum == o["AlertPolicyGroupNum"].bytes[i] == group % 0x100
       && policy.enableAlert == ByteOrZero(o, "EnableAlert", i)
       && ("EnableAlert" in o && o["EnableAlert"].Bytes? ==> policy.enableAlert == 1)
       && policy.policyAction == ByteOrZero(o, "PolicyAction", i)
       && policy.channelNo == ByteOrZero(o, "ChannelNo", i)
       && policy.destinationSel == ByteOrZero(o, "DestinationSel", i)
       && policy.eventSpecificAlertStr
          == if "EventSpecificAlertStr" in o && o["EventSpecificAlertStr"].Texts?
                && i < |o["EventSpecificAlertStr"].texts|
             then o["EventSpecificAlertStr"].texts[i] else ""
  }

  lemma {:induction false} FoundMeaning(r: PolicyReply, group: int, i: nat, policy: AlertPolicyTbl)
    ensures FoundAt(r, group, i, policy)
            <==> && Readable(r)
                 && Applies(ReadPolicies(r.properties.value), i, group)
                 && policy == PolicyAt(ReadPolicies(r.properties.value), i)
  {
  }

  /** A policy is selected just when some answered object under the table has it, in the
      group and enabled. */
  lemma {:induction false} SelectedMeaning(replies: seq<PolicyReply>, group: int, policy: AlertPolicyTbl)
    requires group > 0
    ensures policy in Selected(Some(replies), group)
            <==> exists k: nat, i: nat :: k < |replies| && FoundAt(replies[k], group, i, policy)
  {
    RepliesMeaning(replies, |replies|, group, policy);
    forall k: nat | k < |replies|
      ensures policy in ReplyPolicies(replies[k], group) <==> exists i: nat :: FoundAt(replies[k], group, i, policy)
    {
      ReplyMeaning(replies[k], group, policy);
    }
  }

  lemma {:induction false} InEither(a: seq<AlertPolicyTbl>, b: seq<AlertPolicyTbl>, policy: AlertPolicyTbl)
    ensures policy in a + b <==> policy in a || policy in b
  {
  }

  lemma {:induction false} RepliesFrom(replies: seq<PolicyReply>, n: nat, group: int, policy: AlertPolicyTbl)
    returns (k: nat)
    requires n <= |replies| && policy in RepliesUpTo(replies, n, group)
    ensures k < n && policy in ReplyPolicies(replies[k], group)
  {
    InEither(RepliesUpTo(replies, n - 1, group), ReplyPolicies(replies[n - 1], group), policy);
    if policy in ReplyPolicies(replies[n - 1], group) {
      k := n - 1;
    } else {
      k := RepliesFrom(replies, n - 1, group, policy);
    }
  }

  lemma {:induction false} RepliesInto(replies: seq<PolicyReply>, n: nat, group: int, policy: AlertPolicyTbl, k: nat)
    requires k < n <= |replies| && policy in ReplyPolicies(replies[k], group)
    ensures policy in RepliesUpTo(replies, n, group)
  {
    InEither(RepliesUpTo(replies, n - 1, group), ReplyPolicies(replies[n - 1], group), policy);
    if k < n - 1 {
      RepliesInto(replies, n - 1, group, policy, k);
    }
  }

  lemma {:induction false} RepliesMeaning(replies: seq<PolicyReply>, n: nat, group: int, policy: AlertPolicyTbl)
    requires n <= |replies|
    ensures policy in RepliesUpTo(replies, n, group)
            <==> exists k: nat :: k < n && policy in ReplyPolicies(replies[k], group)
  {
    if policy in RepliesUpTo(replies, n, group) {
      var k := RepliesFrom(replies, n, group, policy);
    }
    if k: nat :| k < n && policy in ReplyPolicies(replies[k], group) {
      RepliesInto(replies, n, group, policy, k);
    }
  }

  lemma {:induction false} ReplyMeaning(r: PolicyReply, group: int, policy: AlertPolicyTbl)
    ensures policy in ReplyPolicies(r, group) <==> exists i: nat :: FoundAt(r, group, i, policy)
  {
    if Readable(r) {
      var c := ReadPolicies(r.properties.value);
      PoliciesMeaning(c, |c.groupNums|, group, policy);
      forall i: nat
        ensures FoundAt(r, group, i, policy) <==> Applies(c, i, group) && policy == PolicyAt(c, i)
      {
        FoundMeaning(r, group, i, policy);
      }
    }
  }

  lemma {:induction false} PoliciesMeaning(c: PolicyColumns, n: nat, group: int, policy: AlertPolicyTbl)
    ensures policy in PoliciesUpTo(c, n, group)
            <==> exists i: nat :: i < n && Applies(c, i, group) && policy == PolicyAt(c, i)
  {
    if n > 0 {
      PoliciesMeaning(c, n - 1, group, policy);
    }
  }

  // ---- publishing and selecting together

  /** The policy a JSON row stands for. */
  function PolicyOf(row: Row): AlertPolicyTbl {
    AlertPolicyTbl(U8Of(row, "AlertPolicyGroupNum"), U8Of(row, "EnableAlert"), U8Of(row, "PolicyAction"),
                   U8Of(row, "ChannelNo"), U8Of(row, "DestinationSel"), TextOf(row, "EventSpecificAlertStr"))
  }

  /** The policy is in the group and enabled. */
  predicate InGroup(policy: AlertPolicyTbl, group: int) {
    policy.enableAlert == 1 && policy.alertPolicyGroupNum == CastU8(group)
  }

  /** The enabled rows of a group, in table order. */
  function PoliciesOf(rows: seq<Row>, group: int): seq<AlertPolicyTbl> {
    if rows == [] then []
    else
      var policy := PolicyOf(rows[|rows| - 1]);
      PoliciesOf(rows[..|rows| - 1], group)
      + if InGroup(policy, group) then [policy] else []
  }

  lemma {:induction false} PoliciesConcat(a: seq<Row>, b: seq<Row>, group: int)
    ensures PoliciesOf(a + b, group) == PoliciesOf(a, group) + PoliciesOf(b, group)
  {
    if b == [] {
      assert a + b == a;
    } else {
      assert (a + b)[..|a + b| - 1] == a + b[..|b| - 1];
      PoliciesConcat(a, b[..|b| - 1], group);
    }
  }

  lemma {:induction false} PublishedByte(rows: seq<Row>, p: string)
    requires p in POLICY_KINDS && POLICY_KINDS[p] == U8
    ensures var c := ByteProperty(Columns(POLICY_KINDS, rows), p);
            c.Some? && |c.value| == |rows| && forall i | 0 <= i < |rows| :: c.value[i] == U8Of(rows[i], p)
  {
    assert Columns(POLICY_KINDS, rows)[p] == Column(U8, p, rows);
  }

  lemma {:induction false} PublishedText(rows: seq<Row>, p: string)
    requires p in POLICY_KINDS && POLICY_KINDS[p] == Text
    ensures var c := TextProperty(Columns(POLICY_KINDS, rows), p);
            c.Some? && |c.value| == |rows| && forall i | 0 <= i < |rows| :: c.value[i] == TextOf(rows[i], p)
  {
    assert Columns(POLICY_KINDS, rows)[p] == Column(Text, p, rows);
  }

  lemma {:induction false} ReadPublishedPolicy(rows: seq<Row>, i: nat, group: int)
    requires i < |rows|
    ensures var c, policy := ReadPolicies(Columns(POLICY_KINDS, rows)), PolicyOf(rows[i]);
            && i < |c.groupNums| == |rows|
            && PolicyAt(c, i) == policy
            && (Applies(c, i, group) <==> InGroup(policy, group))
  {
    PublishedByte(rows, "AlertPolicyGroupNum");
    PublishedByte(rows, "EnableAlert");
    PublishedByte(rows, "PolicyAction");
    PublishedByte(rows, "ChannelNo");
    PublishedByte(rows, "DestinationSel");
    PublishedText(rows, "EventSpecificAlertStr");
  }

  lemma {:induction false} PoliciesFromColumns(c: PolicyColumns, rows: seq<Row>, n: nat, group: int)
    requires n <= |rows| == |c.groupNums|
    requires forall i | 0 <= i < n ::
               && PolicyAt(c, i) == PolicyOf(rows[i])
               && (Applies(c, i, group) <==> InGroup(PolicyOf(rows[i]), group))
    ensures PoliciesUpTo(c, n, group) == PoliciesOf(rows[..n], group)
  {
    if n > 0 {
      PoliciesFromColumns(c, rows, n - 1, group);
      assert rows[..n][..n - 1] == rows[..n - 1];
    }
  }

  lemma {:induction false} PublishedReply(path: string, rows: seq<Row>, group: int)
    requires CHILD_PREFIX <= path
    ensures ReplyPolicies(PolicyReply(path, Some(Columns(POLICY_KINDS, rows))), group) == PoliciesOf(rows, group)
  {
    var c := ReadPolicies(Columns(POLICY_KINDS, rows));
    PublishedByte(rows, "AlertPolicyGroupNum");
    forall i | 0 <= i < |rows|
      ensures PolicyAt(c, i) == PolicyOf(rows[i])
      ensures Applies(c, i, group) <==> InGroup(PolicyOf(rows[i]), group)
    {
      ReadPublishedPolicy(rows, i, group);
    }
    PoliciesFromColumns(c, rows, |rows|, group);
    assert rows[..|rows|] == rows;
  }

  /** The mapper and every list answer: one reply for each published list, in list order. */
  ghost predicate RepliesOf(replies: seq<PolicyReply>, lists: map<nat, Object>) {
    && |replies| == |lists|
    && forall b: nat | b < |replies| ::
         CHILD_PREFIX <= replies[b].path && b in lists && replies[b].properties == Some(lists[b])
  }

  lemma {:induction false} ReplyOfList(replies: seq<PolicyReply>, rows: seq<Row>, group: int, b: nat)
    requires RepliesOf(replies, Published(POLICY_SPEC, rows)) && b < |replies| && b < LISTS
    ensures ReplyPolicies(replies[b], group) == PoliciesOf(Bucket(15, rows, b), group)
  {
    var bucket := Bucket(15, rows, b);
    PublishedUpToAt(POLICY_SPEC, rows, LISTS, b);
    PublishedReply(replies[b].path, bucket, group);
    assert replies[b] == PolicyReply(replies[b].path, Some(Columns(POLICY_KINDS, bucket)));
  }

  lemma {:induction false} RepliesPrefix(replies: seq<PolicyReply>, rows: seq<Row>, group: int, k: nat)
    requires RepliesOf(replies, Published(POLICY_SPEC, rows)) && k <= |replies| <= LISTS
    ensures RepliesUpTo(replies, k, group) == PoliciesOf(rows[..Covered(15, |rows|, k)], group)
  {
    if k > 0 {
      var before, bucket := rows[..Covered(15, |rows|, k - 1)], Bucket(15, rows, k - 1);
      RepliesPrefix(replies, rows, group, k - 1);
      ReplyOfList(replies, rows, group, k - 1);
      BucketExtends(15, rows, k - 1);
      PoliciesConcat(before, bucket, group);
    }
  }

  /** The policies selected from the published lists are the enabled rows of the group in the
      JSON table, in table order, for every table length. */
  lemma {:induction false} PolicySelectionMeaning(replies: seq<PolicyReply>, rows: seq<Row>, group: int)
    requires RepliesOf(replies, Published(POLICY_SPEC, rows)) && group > 0
    ensures Selected(Some(replies), group) == PoliciesOf(rows, group)
  {
    PublishedContiguous(POLICY_SPEC, rows);
    RepliesPrefix(replies, rows, group, |replies|);
    AllCovered(15, |rows|);
    assert rows[..|rows|] == rows;
  }

  /** The lists with rows cover the whole table. */
  lemma {:induction false} AllCovered(width: nat, n: nat)
    requires width > 0
    ensures Covered(width, n, ListCount(width, n)) == n
  {
    var q := (n + width - 1) / width;
    assert n + width - 1 == q * width + (n + width - 1) % width;
  }
}
