/** The Azure credentials file on its text: what each line prints and what each line sets. */
module AzureText {
  import opened Wrappers
  import opened AzureConfig

  lemma KeyNames()
    ensures KeyOf(SubscriptionID) == "AZURE_SUBSCRIPTION_ID" && KeyOf(TenantID) == "AZURE_TENANT_ID"
    ensures KeyOf(ClientID) == "AZURE_CLIENT_ID" && KeyOf(ClientSecret) == "AZURE_CLIENT_SECRET"
    ensures KeyOf(ResourceGroup) == "AZURE_RESOURCE_GROUP" && KeyOf(CloudName) == "AZURE_CLOUD_NAME"
  {
  }

  lemma RenderNext(c: Azure, i: nat, field: Field)
    requires i < |FIELDS| && FIELDS[i] == field
    ensures RenderFields(c, FIELDS[i..]) == KeyOf(field) + "=" + Get(c, field) + "\n" + RenderFields(c, FIELDS[i + 1..])
  {
    assert FIELDS[i..][1..] == FIELDS[i + 1..] && FIELDS[i..][0] == field;
  }

  lemma LastLines(c: Azure)
    ensures RenderFields(c, FIELDS[3..]) ==
            KeyOf(ClientSecret) + "=" + c.clientSecret + "\n"
            + (KeyOf(ResourceGroup) + "=" + c.resourceGroup + "\n"
               + (KeyOf(CloudName) + "=" + c.cloudName + "\n"))
  {
    RenderNext(c, 3, ClientSecret);
    RenderNext(c, 4, ResourceGroup);
    RenderNext(c, 5, CloudName);
    assert RenderFields(c, FIELDS[6..]) == "";
  }

  /** The six lines in their order. */
  lemma SixLines(c: Azure)
    ensures Render(c) ==
            KeyOf(SubscriptionID) + "=" + c.subscriptionID + "\n"
            + (KeyOf(TenantID) + "=" + c.tenantID + "\n"
               + (KeyOf(ClientID) + "=" + c.clientID + "\n"
                  + (KeyOf(ClientSecret) + "=" + c.clientSecret + "\n"
                     + (KeyOf(ResourceGroup) + "=" + c.resourceGroup + "\n"
                        + (KeyOf(CloudName) + "=" + c.cloudName + "\n")))))
  {
    assert FIELDS[0..] == FIELDS;
    RenderNext(c, 0, SubscriptionID);
    RenderNext(c, 1, TenantID);
    RenderNext(c, 2, ClientID);
    LastLines(c);
  }

  /** A line with one "=" sets the field whose key stands before it, white space aside, to what stands behind
      it, and no other field; with another key it sets nothing. */
  lemma LineSets(key: string, val: string, config: Azure, field: Field)
    requires '=' !in key && '=' !in val
    ensures TrimSpace(key) == KeyOf(field) ==>
              var config' := ParseLine(key + "=" + val, config);
              Get(config', field) == TrimSpace(val) && forall other :: other != field ==> Get(config', other) == Get(config, other)
    ensures (forall other :: TrimSpace(key) != KeyOf(other)) ==> ParseLine(key + "=" + val, config) == config
  {
    OneHalf(key, val);
    if TrimSpace(key) == KeyOf(field) {
      FieldOfIff(TrimSpace(key), field);
    }
    match FieldOf(TrimSpace(key)) {
      case None =>
      case Some(f) => FieldOfIff(TrimSpace(key), f);
    }
  }

  lemma OneHalf(key: string, val: string)
    requires '=' !in key && '=' !in val
    ensures Halves(key + "=" + val) == Some((key, val))
  {
    var line := key + "=" + val;
    forall j | 0 <= j < |key| ensures line[j] != '=' {
      assert line[j] == key[j];
    }
    IndexIs(line, '=', |key|);
    assert line[..|key|] == key && line[|key| + 1..] == val;
  }

  /** A line without "=" sets nothing, nor does one with two of them. */
  lemma OtherLinesSetNothing(line: string, i: nat, j: nat, config: Azure)
    requires '=' !in line || (i < j < |line| && line[i] == '=' && line[j] == '=')
    ensures ParseLine(line, config) == config
  {
    if '=' !in line {
      NoSign(line);
    } else {
      TwoSigns(line, i, j);
    }
    SkippedLine(line, config);
  }

  lemma SkippedLine(line: string, config: Azure)
    requires Halves(line) == None
    ensures ParseLine(line, config) == config
  {
  }

  lemma NoSign(line: string)
    requires '=' !in line
    ensures Halves(line) == None
  {
  }

  lemma TwoSigns(line: string, i: nat, j: nat)
    requires i < j < |line| && line[i] == '=' && line[j] == '='
    ensures Halves(line) == None
  {
    var k := IndexOf(line, '=');
    assert k <= i;
    assert line[k + 1..][j - k - 1] == '=';
  }

  lemma {:induction false} LeftAt(s: string, i: nat)
    requires i < |s| - |TrimLeft(s)|
    ensures IsSpace(s[i])
  {
    if i > 0 {
      LeftAt(s[1..], i - 1);
    }
  }

  lemma {:induction false} RightAt(s: string, i: nat)
    requires |TrimRight(s)| <= i < |s|
    ensures IsSpace(s[i])
  {
    if i < |s| - 1 {
      RightAt(s[..|s| - 1], i);
    }
  }

  /** Where the part begins that is left of a text. */
  function Start(s: string): nat {
    |s| - |TrimLeft(s)|
  }

  lemma BehindAt(s: string, k: nat)
    requires Start(s) + |TrimSpace(s)| <= k < |s|
    ensures IsSpace(s[k])
  {
    var l := TrimLeft(s);
    RightAt(l, k - Start(s));
    assert l[k - Start(s)] == s[k];
  }

  lemma MiddleIs(s: string)
    ensures Start(s) + |TrimSpace(s)| <= |s| && TrimSpace(s) == s[Start(s)..Start(s) + |TrimSpace(s)|]
  {
    var l := TrimLeft(s);
    assert s[Start(s)..][..|TrimRight(l)|] == s[Start(s)..Start(s) + |TrimRight(l)|];
  }

  /** What is left is a part of the text with white space only before and behind it, and none at its ends. */
  lemma TrimIs(s: string, k: nat)
    ensures Start(s) + |TrimSpace(s)| <= |s| && TrimSpace(s) == s[Start(s)..Start(s) + |TrimSpace(s)|]
    ensures Bare(TrimSpace(s))
    ensures k < Start(s) || Start(s) + |TrimSpace(s)| <= k < |s| ==> IsSpace(s[k])
  {
    MiddleIs(s);
    TrimIsBare(s);
    if k < Start(s) {
      LeftAt(s, k);
    } else if Start(s) + |TrimSpace(s)| <= k < |s| {
      BehindAt(s, k);
    }
  }

  lemma SpacesAre(c: char)
    ensures c in "\t\n\U{0B}\U{0C}\r \U{85}\U{A0}\U{1680}\U{2028}\U{2029}\U{202F}\U{205F}\U{3000}" ==> IsSpace(c)
    ensures '\U{2000}' <= c <= '\U{200A}' ==> IsSpace(c)
    ensures '!' <= c <= '~' ==> !IsSpace(c)
  {
  }

  /** The parser takes one line after the other, without a trailing carriage return, and stops at one of 64
      kilobytes or more, whatever follows. */
  lemma LineByLine(line: string, rest: string, config: Azure)
    requires '\n' !in line
    ensures Bytes(line) >= 65_536 ==> ParseFrom(line, config) == config && ParseFrom(line + "\n" + rest, config) == config
    ensures Bytes(line) < 65_536 ==>
              && ParseFrom(line + "\n" + rest, config) == ParseFrom(rest, ParseLine(DropCR(line), config))
              && (line != "" ==> ParseFrom(line, config) == ParseLine(DropCR(line), config))
    ensures ParseFrom("", config) == config
  {
    var data := line + "\n" + rest;
    forall j | 0 <= j < |line| ensures data[j] != '\n' {
      assert data[j] == line[j];
    }
    IndexIs(data, '\n', |line|);
    assert data[..|line|] == line && line[..|line|] == line;
    if Bytes(line) < 65_536 {
      ParseFirstLine(line, rest, config);
    }
  }
}
