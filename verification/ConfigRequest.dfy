/** The values that a config request carries, and how they replace those of a version. */
module ConfigRequest {
  import opened Wrappers
  import opened ConfigSecrets

  type Config = map<string, string>

  datatype ItemValue = BoolValue(b: bool) | StringValue(s: string)

  datatype RequestItem = RequestItem(name: string, kind: string, value: ItemValue)

  /** A password that decrypts is not encrypted again. */
  function Sealed(cipher: Cipher, s: string): string {
    if cipher.decrypt(s).Some? then s else cipher.encrypt(s)
  }

  function TextOf(cipher: Cipher, item: RequestItem): string {
    match item.value
    case BoolValue(b) => if b then "true" else "false"
    case StringValue(s) => if item.kind == "password" then Sealed(cipher, s) else s
  }

  function Flat(groups: seq<seq<RequestItem>>): seq<RequestItem> {
    if groups == [] then [] else Flat(groups[..|groups| - 1]) + groups[|groups| - 1]
  }

  /** The value that each name ends up with. */
  function Requested(cipher: Cipher, items: seq<RequestItem>): Config {
    if items == [] then map[]
    else
      var last := items[|items| - 1];
      Requested(cipher, items[..|items| - 1])[last.name := TextOf(cipher, last)]
  }

  lemma {:induction false} RequestedAppend(cipher: Cipher, a: seq<RequestItem>, b: seq<RequestItem>)
    ensures Requested(cipher, a + b) == Requested(cipher, a) + Requested(cipher, b)
    decreases |b|
  {
    if b == [] {
      assert a + b == a;
    } else {
      assert (a + b)[..|a + b| - 1] == a + b[..|b| - 1];
      RequestedAppend(cipher, a, b[..|b| - 1]);
    }
  }

  /** The last item with a name decides: a truth value in words, a plain text as it is, a password
      encrypted unless it decrypts. A name without an item is not requested. */
  lemma {:induction false} LastItemDecides(cipher: Cipher, items: seq<RequestItem>, i: nat)
    requires i < |items| && forall j :: i < j < |items| ==> items[j].name != items[i].name
    ensures items[i].name in Requested(cipher, items)
    ensures var text := Requested(cipher, items)[items[i].name];
            && (items[i].value == BoolValue(true) ==> text == "true")
            && (items[i].value == BoolValue(false) ==> text == "false")
            && (items[i].value.StringValue? && items[i].kind != "password" ==> text == items[i].value.s)
            && (items[i].value.StringValue? && items[i].kind == "password" ==>
                  if cipher.decrypt(items[i].value.s).None? then text == cipher.encrypt(items[i].value.s)
                  else text == items[i].value.s)
    decreases |items|
  {
    if i < |items| - 1 {
      LastItemDecides(cipher, items[..|items| - 1], i);
    }
  }

  lemma {:induction false} RequestedIff(cipher: Cipher, items: seq<RequestItem>, name: string)
    ensures name in Requested(cipher, items) <==> exists i :: 0 <= i < |items| && items[i].name == name
    decreases |items|
  {
    if items != [] {
      var front := items[..|items| - 1];
      RequestedIff(cipher, front, name);
      if name in Requested(cipher, front) {
        var i :| 0 <= i < |front| && front[i].name == name;
        assert items[i].name == name;
      }
    }
  }

  method ItemText(item: RequestItem, cipher: Cipher) returns (text: string)
    ensures text == TextOf(cipher, item)
  {
    match item.value {
      case BoolValue(b) => text := if b then "true" else "false";
      case StringValue(s) =>
        text := s;
        if item.kind == "password" && cipher.decrypt(s).None? {
          text := cipher.encrypt(s);
        }
    }
  }

  method MergeGroup(values: Config, items: seq<RequestItem>, cipher: Cipher) returns (merged: Config)
    ensures merged == values + Requested(cipher, items)
  {
    merged := values;
    for i := 0 to |items|
      invariant merged == values + Requested(cipher, items[..i])
    {
      assert items[..i + 1][..i] == items[..i];
      var text := ItemText(items[i], cipher);
      merged := merged[items[i].name := text];
    }
    assert items[..|items|] == items;
  }

  lemma MergeTwice(values: Config, a: Config, b: Config)
    ensures values + a + b == values + (a + b)
  {
  }

  lemma GroupStep(values: Config, groups: seq<seq<RequestItem>>, g: nat, cipher: Cipher)
    requires g < |groups|
    ensures values + Requested(cipher, Flat(groups[..g])) + Requested(cipher, groups[g]) ==
            values + Requested(cipher, Flat(groups[..g + 1]))
  {
    assert groups[..g + 1][..g] == groups[..g];
    RequestedAppend(cipher, Flat(groups[..g]), groups[g]);
    MergeTwice(values, Requested(cipher, Flat(groups[..g])), Requested(cipher, groups[g]));
  }

  /** The loops of `updateAppConfig` over groups and items. */
  method MergeValues(values: Config, groups: seq<seq<RequestItem>>, cipher: Cipher) returns (merged: Config)
    ensures merged == values + Requested(cipher, Flat(groups))
  {
    merged := values;
    for g := 0 to |groups|
      invariant merged == values + Requested(cipher, Flat(groups[..g]))
    {
      merged := MergeGroup(merged, groups[g], cipher);
      GroupStep(values, groups, g, cipher);
    }
    assert groups[..|groups|] == groups;
  }
}
