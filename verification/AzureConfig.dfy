/** The Azure credentials file: six lines of key and value, printed and parsed again. */
module AzureConfig {
  import opened Wrappers

  datatype Azure = Azure(subscriptionID: string, tenantID: string, clientID: string,
                         clientSecret: string, resourceGroup: string, cloudName: string)

  datatype Field = SubscriptionID | TenantID | ClientID | ClientSecret | ResourceGroup | CloudName

  const EMPTY := Azure("", "", "", "", "", "")

  /** The order of printing. */
  const FIELDS := [SubscriptionID, TenantID, ClientID, ClientSecret, ResourceGroup, CloudName]

  /** A line of this many bytes or more does not fit the scanner's buffer. */
  const LIMIT := 65536

  function KeyOf(field: Field): string {
    match field
    case SubscriptionID => "AZURE_SUBSCRIPTION_ID"
    case TenantID => "AZURE_TENANT_ID"
    case ClientID => "AZURE_CLIENT_ID"
    case ClientSecret => "AZURE_CLIENT_SECRET"
    case ResourceGroup => "AZURE_RESOURCE_GROUP"
    case CloudName => "AZURE_CLOUD_NAME"
  }

  function FieldOf(key: string): Option<Field> {
    if key == "AZURE_SUBSCRIPTION_ID" then Some(SubscriptionID)
    else if key == "AZURE_TENANT_ID" then Some(TenantID)
    else if key == "AZURE_CLIENT_ID" then Some(ClientID)
    else if key == "AZURE_CLIENT_SECRET" then Some(ClientSecret)
    else if key == "AZURE_RESOURCE_GROUP" then Some(ResourceGroup)
    else if key == "AZURE_CLOUD_NAME" then Some(CloudName)
    else None
  }

  function Get(c: Azure, field: Field): string {
    match field
    case SubscriptionID => c.subscriptionID
    case TenantID => c.tenantID
    case ClientID => c.clientID
    case ClientSecret => c.clientSecret
    case ResourceGroup => c.resourceGroup
    case CloudName => c.cloudName
  }

  function Set(c: Azure, field: Field, value: string): (c': Azure)
    ensures forall other :: Get(c', other) == if other == field then value else Get(c, other)
  {
    match field
    case SubscriptionID => c.(subscriptionID := value)
    case TenantID => c.(tenantID := value)
    case ClientID => c.(clientID := value)
    case ClientSecret => c.(clientSecret := value)
    case ResourceGroup => c.(resourceGroup := value)
    case CloudName => c.(cloudName := value)
  }

  // Text

  /** `unicode.IsSpace`. */
  predicate IsSpace(c: char) {
    || '\t' <= c <= '\r' || c == ' ' || c == '\U{85}' || c == '\U{A0}' || c == '\U{1680}'
    || '\U{2000}' <= c <= '\U{200A}' || c == '\U{2028}' || c == '\U{2029}' || c == '\U{202F}'
    || c == '\U{205F}' || c == '\U{3000}'
  }

  /** The bytes of a character and of a text in UTF-8. */
  function Width(c: char): nat {
    if c <= '\U{7F}' then 1 else if c <= '\U{7FF}' then 2 else if c <= '\U{FFFF}' then 3 else 4
  }

  function Bytes(s: string): nat {
    if s == "" then 0 else Width(s[0]) + Bytes(s[1..])
  }

  lemma {:induction false} BytesConcat(a: string, b: string)
    ensures Bytes(a + b) == Bytes(a) + Bytes(b)
  {
    if a == "" {
      assert a + b == b;
    } else {
      assert (a + b)[0] == a[0] && (a + b)[1..] == a[1..] + b;
      BytesConcat(a[1..], b);
    }
  }

  lemma BytesCut(s: string, i: nat)
    requires i <= |s|
    ensures Bytes(s) == Bytes(s[..i]) + Bytes(s[i..])
  {
    assert s == s[..i] + s[i..];
    BytesConcat(s[..i], s[i..]);
  }

  lemma BytesAround(s: string, i: nat)
    requires i < |s|
    ensures Bytes(s) == Bytes(s[..i]) + Width(s[i]) + Bytes(s[i + 1..])
  {
    BytesCut(s, i);
    assert s[i..][1..] == s[i + 1..];
  }

  function TrimLeft(s: string): (t: string)
    ensures t == "" || !IsSpace(t[0])
    ensures |t| <= |s| && t == s[|s| - |t|..]
  {
    if s != "" && IsSpace(s[0]) then TrimLeft(s[1..]) else s
  }

  function TrimRight(s: string): (t: string)
    ensures t == "" || !IsSpace(t[|t| - 1])
    ensures |t| <= |s| && t == s[..|t|]
  {
    if s != "" && IsSpace(s[|s| - 1]) then TrimRight(s[..|s| - 1]) else s
  }

  /** `strings.TrimSpace`. */
  function TrimSpace(s: string): string {
    TrimRight(TrimLeft(s))
  }

  /** No white space at either end. */
  predicate Bare(s: string) {
    s == "" || (!IsSpace(s[0]) && !IsSpace(s[|s| - 1]))
  }

  /** The first place of `c` in `s`, or the length of `s`. */
  function IndexOf(s: string, c: char): (i: nat)
    ensures i <= |s| && (i < |s| ==> s[i] == c) && forall j :: 0 <= j < i ==> s[j] != c
  {
    if s == "" || s[0] == c then 0 else 1 + IndexOf(s[1..], c)
  }

  lemma TrimBare(s: string)
    requires Bare(s)
    ensures TrimSpace(s) == s
  {
  }

  lemma TrimIsBare(s: string)
    ensures Bare(TrimSpace(s))
  {
    var l := TrimLeft(s);
    var t := TrimRight(l);
    assert t != "" ==> t[0] == l[0];
  }

  lemma TrimFits(s: string)
    ensures Bytes(TrimSpace(s)) <= Bytes(s)
  {
    var l := TrimLeft(s);
    BytesCut(s, |s| - |l|);
    BytesCut(l, |TrimRight(l)|);
  }

  lemma TrimKeeps(s: string, c: char)
    ensures c in TrimSpace(s) ==> c in s
  {
  }

  lemma IndexIs(s: string, c: char, i: nat)
    requires i < |s| && s[i] == c && forall j :: 0 <= j < i ==> s[j] != c
    ensures IndexOf(s, c) == i
  {
  }

  // Printing

  function Line(key: string, value: string): string {
    key + "=" + value
  }

  function RenderFields(c: Azure, fields: seq<Field>): string {
    if fields == [] then ""
    else Line(KeyOf(fields[0]), Get(c, fields[0])) + "\n" + RenderFields(c, fields[1..])
  }

  function Render(c: Azure): string {
    RenderFields(c, FIELDS)
  }

  // Parsing

  /** The key and the value of a line with exactly one "=". */
  function Halves(line: string): Option<(string, string)> {
    var i := IndexOf(line, '=');
    if i == |line| || '=' in line[i + 1..] then None else Some((line[..i], line[i + 1..]))
  }

  /** What a scanned line does to the configuration. */
  function ParseLine(line: string, config: Azure): Azure {
    match Halves(line)
    case None => config
    case Some((key, val)) =>
      match FieldOf(TrimSpace(key))
      case None => config
      case Some(field) => Set(config, field, TrimSpace(val))
  }

  function DropCR(line: string): string {
    if line != "" && line[|line| - 1] == '\r' then line[..|line| - 1] else line
  }

  /** The scanner loop: line by line without the line ends, up to the end or the first line that is too
      long for the buffer. */
  function ParseFrom(data: string, config: Azure): Azure
    decreases |data|
  {
    var i := IndexOf(data, '\n');
    if data == "" || Bytes(data[..i]) >= LIMIT then config
    else if i == |data| then ParseLine(DropCR(data), config)
    else ParseFrom(data[i + 1..], ParseLine(DropCR(data[..i]), config))
  }

  method ParseAzureConfig(data: string) returns (config: Azure)
    ensures config == ParseFrom(data, EMPTY)
  {
    config := EMPTY;
    var rest := data;
    while true
      invariant ParseFrom(data, EMPTY) == ParseFrom(rest, config)
      decreases |rest|
    {
      var i := IndexOf(rest, '\n');
      if rest == "" || Bytes(rest[..i]) >= LIMIT {
        return;
      }
      if i == |rest| {
        config := ParseLine(DropCR(rest), config);
        return;
      }
      config := ParseLine(DropCR(rest[..i]), config);
      rest := rest[i + 1..];
    }
  }

  // The round trip

  /** A value that its line can carry. */
  predicate Carried(field: Field, value: string) {
    '=' !in value && '\n' !in value && Bare(value) && |KeyOf(field)| + 1 + Bytes(value) < LIMIT
  }

  predicate AllCarried(c: Azure) {
    forall field :: Carried(field, Get(c, field))
  }

  predicate Letters(key: string) {
    key != "" && forall i :: 0 <= i < |key| ==> 'A' <= key[i] <= '_'
  }

  lemma {:induction false} BytesOfLetters(key: string)
    requires key == "" || Letters(key)
    ensures Bytes(key) == |key|
  {
    if key != "" { BytesOfLetters(key[1..]); }
  }

  lemma KeysAreLetters(field: Field)
    ensures Letters(KeyOf(field))
  {
  }

  lemma FieldOfKey(field: Field)
    ensures FieldOf(KeyOf(field)) == Some(field)
  {
    assert "AZURE_TENANT_ID"[6] != "AZURE_CLIENT_ID"[6];
  }

  lemma FieldOfIff(key: string, field: Field)
    ensures FieldOf(key) == Some(field) <==> key == KeyOf(field)
  {
    FieldOfKey(field);
  }

  lemma HalvesOfLine(key: string, value: string)
    requires Letters(key) && '=' !in value
    ensures Halves(Line(key, value)) == Some((key, value))
  {
    var line := Line(key, value);
    forall j | 0 <= j < |key| ensures line[j] != '=' {
      assert line[j] == key[j];
    }
    IndexIs(line, '=', |key|);
    assert line[..|key|] == key && line[|key| + 1..] == value;
  }

  lemma TrimmedHalves(key: string, value: string)
    requires Letters(key) && '=' !in value && Bare(value)
    ensures Halves(Line(key, value)) == Some((key, value)) && TrimSpace(key) == key && TrimSpace(value) == value
  {
    HalvesOfLine(key, value);
    TrimBare(key);
    TrimBare(value);
  }

  lemma ParseOwnLine(field: Field, value: string, config: Azure)
    requires Carried(field, value)
    ensures ParseLine(Line(KeyOf(field), value), config) == Set(config, field, value)
  {
    KeysAreLetters(field);
    TrimmedHalves(KeyOf(field), value);
    FieldOfKey(field);
  }

  lemma LineIsOneLine(key: string, value: string)
    requires Letters(key) && '\n' !in value && Bare(value)
    ensures var line := Line(key, value);
            '\n' !in line && DropCR(line) == line && Bytes(line) == |key| + 1 + Bytes(value)
  {
    var line := Line(key, value);
    BytesOfLetters(key);
    BytesConcat(key + "=", value);
    BytesConcat(key, "=");
    forall j | 0 <= j < |line| ensures line[j] != '\n' {
      assert line[j] == if j < |key| then key[j] else if j == |key| then '=' else value[j - |key| - 1];
    }
    assert value != "" ==> line[|line| - 1] == value[|value| - 1];
  }

  function CopyFields(c: Azure, fields: seq<Field>, config: Azure): Azure {
    if fields == [] then config
    else CopyFields(c, fields[1..], Set(config, fields[0], Get(c, fields[0])))
  }

  /** A line that fits is parsed first. */
  lemma ParseFirstLine(line: string, rest: string, config: Azure)
    requires '\n' !in line && Bytes(line) < LIMIT
    ensures ParseFrom(line + "\n" + rest, config) == ParseFrom(rest, ParseLine(DropCR(line), config))
  {
    var data := line + "\n" + rest;
    forall j | 0 <= j < |line| ensures data[j] != '\n' {
      assert data[j] == line[j];
    }
    IndexIs(data, '\n', |line|);
    assert data[..|line|] == line && data[|line| + 1..] == rest;
  }

  lemma ParseNextLine(field: Field, value: string, rest: string, config: Azure)
    requires Carried(field, value)
    ensures ParseFrom(Line(KeyOf(field), value) + "\n" + rest, config) == ParseFrom(rest, Set(config, field, value))
  {
    KeysAreLetters(field);
    LineIsOneLine(KeyOf(field), value);
    ParseFirstLine(Line(KeyOf(field), value), rest, config);
    ParseOwnLine(field, value, config);
  }

  lemma {:induction false} ParseRendered(c: Azure, fields: seq<Field>, config: Azure)
    requires AllCarried(c)
    ensures ParseFrom(RenderFields(c, fields), config) == CopyFields(c, fields, config)
  {
    if fields != [] {
      var value := Get(c, fields[0]);
      ParseNextLine(fields[0], value, RenderFields(c, fields[1..]), config);
      ParseRendered(c, fields[1..], Set(config, fields[0], value));
    }
  }

  lemma {:induction false} CopiedField(c: Azure, fields: seq<Field>, config: Azure, field: Field)
    ensures Get(CopyFields(c, fields, config), field) == if field in fields then Get(c, field) else Get(config, field)
  {
    if fields != [] {
      CopiedField(c, fields[1..], Set(config, fields[0], Get(c, fields[0])), field);
    }
  }

  lemma SameFields(c: Azure, d: Azure)
    requires forall field :: Get(c, field) == Get(d, field)
    ensures c == d
  {
    assert Get(c, SubscriptionID) == Get(d, SubscriptionID) && Get(c, TenantID) == Get(d, TenantID);
    assert Get(c, ClientID) == Get(d, ClientID) && Get(c, ClientSecret) == Get(d, ClientSecret);
    assert Get(c, ResourceGroup) == Get(d, ResourceGroup) && Get(c, CloudName) == Get(d, CloudName);
  }

  lemma CopyAll(c: Azure)
    ensures CopyFields(c, FIELDS, EMPTY) == c
  {
    forall field ensures Get(CopyFields(c, FIELDS, EMPTY), field) == Get(c, field) {
      CopiedField(c, FIELDS, EMPTY, field);
    }
    SameFields(CopyFields(c, FIELDS, EMPTY), c);
  }

  lemma HalvesAddUp(line: string)
    requires Halves(line).Some?
    ensures Bytes(Halves(line).value.0) + 1 + Bytes(Halves(line).value.1) == Bytes(line)
  {
    BytesAround(line, IndexOf(line, '='));
  }

  lemma HalvesFit(line: string)
    requires Halves(line).Some?
    ensures Bytes(TrimSpace(Halves(line).value.0)) + 1 + Bytes(TrimSpace(Halves(line).value.1)) <= Bytes(line)
  {
    HalvesAddUp(line);
    TrimFits(Halves(line).value.0);
    TrimFits(Halves(line).value.1);
  }

  lemma HalvesAreClean(line: string)
    requires Halves(line).Some? && '\n' !in line
    ensures var val := TrimSpace(Halves(line).value.1);
            '=' !in val && '\n' !in val && Bare(val)
  {
    var val := Halves(line).value.1;
    assert '\n' !in val;
    TrimKeeps(val, '=');
    TrimKeeps(val, '\n');
    TrimIsBare(val);
  }

  lemma ParsedValueIsCarried(line: string, field: Field)
    requires '\n' !in line && Bytes(line) < LIMIT && Halves(line).Some?
    requires TrimSpace(Halves(line).value.0) == KeyOf(field)
    ensures Carried(field, TrimSpace(Halves(line).value.1))
  {
    HalvesFit(line);
    HalvesAreClean(line);
    KeysAreLetters(field);
    BytesOfLetters(KeyOf(field));
  }

  lemma ParseLineKeepsCarried(line: string, config: Azure)
    requires AllCarried(config) && '\n' !in line && Bytes(line) < LIMIT
    ensures AllCarried(ParseLine(line, config))
  {
    match Halves(line) {
      case None =>
      case Some((key, val)) =>
        match FieldOf(TrimSpace(key)) {
          case None =>
          case Some(field) =>
            FieldOfIff(TrimSpace(key), field);
            ParsedValueIsCarried(line, field);
        }
    }
  }

  lemma DropCRKeeps(line: string)
    ensures Bytes(DropCR(line)) <= Bytes(line)
    ensures '\n' !in line ==> '\n' !in DropCR(line)
  {
    if DropCR(line) != line {
      BytesCut(line, |line| - 1);
    }
  }

  /** Whatever is parsed, every value of the result can be carried. */
  lemma {:induction false} ParsedIsCarried(data: string, config: Azure)
    requires AllCarried(config)
    ensures AllCarried(ParseFrom(data, config))
    decreases |data|
  {
    var i := IndexOf(data, '\n');
    if data != "" && Bytes(data[..i]) < LIMIT {
      assert i == |data| ==> data[..i] == data;
      DropCRKeeps(data[..i]);
      ParseLineKeepsCarried(DropCR(data[..i]), config);
      if i < |data| {
        ParsedIsCarried(data[i + 1..], ParseLine(DropCR(data[..i]), config));
      }
    }
  }

  lemma EmptyIsCarried()
    ensures AllCarried(EMPTY)
  {
  }

  /** A configuration comes back from being printed and parsed exactly when every value can be carried:
      no "=", no line break, no surrounding white space, and a line that fits the buffer. */
  lemma RoundTripIff(c: Azure)
    ensures ParseFrom(Render(c), EMPTY) == c <==> AllCarried(c)
  {
    if AllCarried(c) {
      ParseRendered(c, FIELDS, EMPTY);
      CopyAll(c);
    }
    EmptyIsCarried();
    ParsedIsCarried(Render(c), EMPTY);
  }

  /** The first `i` lines have been written. */
  ghost predicate Written(data: string, c: Azure, i: nat) {
    i <= |FIELDS| && data + RenderFields(c, FIELDS[i..]) == Render(c)
  }

  lemma NothingWritten(c: Azure)
    ensures Written("", c, 0)
  {
    assert FIELDS[0..] == FIELDS;
  }

  lemma AllWritten(data: string, c: Azure)
    requires Written(data, c, 6)
    ensures data == Render(c)
  {
  }

  lemma WriteNext(data: string, c: Azure, fields: seq<Field>)
    requires fields != []
    ensures data + RenderFields(c, fields) ==
            data + Line(KeyOf(fields[0]), Get(c, fields[0])) + "\n" + RenderFields(c, fields[1..])
  {
  }

  method WriteLine(data: string, field: Field, value: string, ghost c: Azure, ghost i: nat) returns (r: string)
    requires Written(data, c, i) && i < |FIELDS| && field == FIELDS[i] && value == Get(c, field)
    ensures Written(r, c, i + 1)
  {
    assert FIELDS[i..][1..] == FIELDS[i + 1..] && FIELDS[i..][0] == field;
    WriteNext(data, c, FIELDS[i..]);
    r := data + Line(KeyOf(field), value) + "\n";
  }

  method RenderAzureConfig(config: Azure) returns (data: string)
    ensures data == Render(config)
  {
    NothingWritten(config);
    data := WriteLine("", SubscriptionID, config.subscriptionID, config, 0);
    data := WriteLine(data, TenantID, config.tenantID, config, 1);
    data := WriteLine(data, ClientID, config.clientID, config, 2);
    data := WriteLine(data, ClientSecret, config.clientSecret, config, 3);
    data := WriteLine(data, ResourceGroup, config.resourceGroup, config, 4);
    data := WriteLine(data, CloudName, config.cloudName, config, 5);
    AllWritten(data, config);
  }
}
