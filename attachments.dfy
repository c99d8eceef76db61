/**
 * The network interface and subnet of a described task, read from the
 * details of its attachment by the `switch` loop of `DescribeTasks`.
 */
module Attachments {
  import opened EcsTypes

  const NetworkInterfaceIdKey: string := "networkInterfaceId"
  const SubnetIdKey: string := "subnetId"

  /** Detail `i` is the last one named `key`. */
  predicate LastNamed(details: seq<KeyValuePair>, key: string, i: int)
  {
    0 <= i < |details| && details[i].name == key
    && forall j :: i < j < |details| ==> details[j].name != key
  }

  /** The value of the last detail named `key`, or `""` when no detail has that name. */
  function LastValue(details: seq<KeyValuePair>, key: string): (value: string)
    ensures (forall i :: 0 <= i < |details| ==> details[i].name != key) ==> value == ""
    ensures forall i :: LastNamed(details, key, i) ==> value == details[i].value
  {
    if details == [] then ""
    else if details[|details| - 1].name == key then details[|details| - 1].value
    else
      var init := details[..|details| - 1];
      assert forall i :: LastNamed(details, key, i) ==> LastNamed(init, key, i);
      LastValue(init, key)
  }

  /** The detail a task field gets: read only when the task has exactly one attachment. */
  function DetailOf(attachments: seq<Attachment>, key: string): string
  {
    if |attachments| == 1 then LastValue(attachments[0].details, key) else ""
  }

  /**
   * The `switch` loop: every detail named `networkInterfaceId` or `subnetId`
   * overwrites the matching field, every other detail is skipped, and
   * nothing is read unless there is exactly one attachment.
   */
  method ExtractNetworkDetails(attachments: seq<Attachment>) returns (eniId: string, subnetId: string)
    ensures |attachments| != 1 ==> eniId == "" && subnetId == ""
    ensures eniId == DetailOf(attachments, NetworkInterfaceIdKey)
    ensures subnetId == DetailOf(attachments, SubnetIdKey)
  {
    eniId, subnetId := "", "";
    if |attachments| == 1 {
      var details := attachments[0].details;
      for i := 0 to |details|
        invariant eniId == LastValue(details[..i], NetworkInterfaceIdKey)
        invariant subnetId == LastValue(details[..i], SubnetIdKey)
      {
        assert details[..i + 1][..i] == details[..i];
        var name := details[i].name;
        if name == NetworkInterfaceIdKey {
          eniId := details[i].value;
        } else if name == SubnetIdKey {
          subnetId := details[i].value;
        }
      }
      assert details[..|details|] == details;
    }
  }

  /** Scenario: a later detail with the same name overrides an earlier one; other names are ignored. */
  lemma LastDetailWins()
    ensures DetailOf([Attachment([KeyValuePair("subnetId", "a"), KeyValuePair("macAddress", "m"),
                                  KeyValuePair("subnetId", "b")])], SubnetIdKey) == "b"
    ensures DetailOf([Attachment([KeyValuePair("subnetId", "a")]), Attachment([])], SubnetIdKey) == ""
  {
  }
}
