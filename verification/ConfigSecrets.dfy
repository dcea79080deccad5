/** Encryption and decryption of the password values of a configuration. */
module ConfigSecrets {
  import opened Wrappers

  datatype ConfigValue = ConfigValue(value: string, plaintext: string)

  datatype Item = Item(name: string, kind: string)

  type Values = map<string, ConfigValue>

  /** Encryption followed by base64 encoding, and the two undone; decoding fails on other texts. */
  datatype Cipher = Cipher(encrypt: string -> string, decrypt: string -> Option<string>)

  /** What the cipher must do: decrypting undoes encrypting, and a cipher text is not empty. */
  ghost predicate Inverts(cipher: Cipher) {
    forall p: string :: cipher.decrypt(cipher.encrypt(p)) == Some(p) && cipher.encrypt(p) != ""
  }

  /** The kind of the first item with the name, over all groups in order; empty when there is none. */
  function KindOf(groups: seq<seq<Item>>, name: string): string {
    if groups == [] then ""
    else match KindIn(groups[0], name)
         case Some(kind) => kind
         case None => KindOf(groups[1..], name)
  }

  function KindIn(items: seq<Item>, name: string): Option<string> {
    if items == [] then None
    else if items[0].name == name then Some(items[0].kind)
    else KindIn(items[1..], name)
  }

  /** The first item with the name decides, in the first group that has one. */
  lemma {:induction false} KindInIs(items: seq<Item>, name: string, i: nat)
    requires i < |items| && items[i].name == name && forall j :: 0 <= j < i ==> items[j].name != name
    ensures KindIn(items, name) == Some(items[i].kind)
  {
    if i > 0 {
      KindInIs(items[1..], name, i - 1);
    }
  }

  lemma {:induction false} NotIn(items: seq<Item>, name: string)
    requires forall i :: 0 <= i < |items| ==> items[i].name != name
    ensures KindIn(items, name) == None
  {
    if items != [] {
      NotIn(items[1..], name);
    }
  }

  predicate Lists(items: seq<Item>, name: string) {
    exists i :: 0 <= i < |items| && items[i].name == name
  }

  lemma {:induction false} KindOfIs(groups: seq<seq<Item>>, name: string, g: nat, i: nat)
    requires g < |groups| && forall h :: 0 <= h < g ==> !Lists(groups[h], name)
    requires i < |groups[g]| && groups[g][i].name == name && forall j :: 0 <= j < i ==> groups[g][j].name != name
    ensures KindOf(groups, name) == groups[g][i].kind
  {
    if g > 0 {
      assert !Lists(groups[0], name);
      NotIn(groups[0], name);
      KindOfIs(groups[1..], name, g - 1, i);
    } else {
      KindInIs(groups[0], name, i);
    }
  }

  lemma {:induction false} NoKind(groups: seq<seq<Item>>, name: string)
    requires forall h :: 0 <= h < |groups| ==> !Lists(groups[h], name)
    ensures KindOf(groups, name) == ""
  {
    if groups != [] {
      assert !Lists(groups[0], name);
      NotIn(groups[0], name);
      NoKind(groups[1..], name);
    }
  }

  // The two transformations

  function Encrypted(cipher: Cipher, v: ConfigValue): ConfigValue {
    if v.plaintext != "" then ConfigValue(cipher.encrypt(v.plaintext), "") else v
  }

  function Decrypted(cipher: Cipher, v: ConfigValue): ConfigValue {
    if v.value != "" && cipher.decrypt(v.value).Some? then ConfigValue("", cipher.decrypt(v.value).value) else v
  }

  function EncryptAll(cipher: Cipher, values: Values): Values {
    map name | name in values :: Encrypted(cipher, values[name])
  }

  function DecryptAll(cipher: Cipher, values: Values): Values {
    map name | name in values :: Decrypted(cipher, values[name])
  }

  predicate NoPlaintext(values: Values) {
    forall name | name in values :: values[name].plaintext == ""
  }

  /** Only password items may have a plaintext. */
  predicate OnlyPasswords(groups: seq<seq<Item>>, values: Values) {
    forall name | name in values && values[name].plaintext != "" :: KindOf(groups, name) == "password"
  }

  // The code

  class KotsKinds {
    var config: Option<seq<seq<Item>>>
    var values: Option<Values>
    var cipher: Option<Cipher>

    /** `cipher` is what the encryption key gives; None when no cipher can be made from it. */
    constructor (config: Option<seq<seq<Item>>>, values: Option<Values>, cipher: Option<Cipher>)
      ensures this.config == config && this.values == values && this.cipher == cipher
    {
      this.config, this.values, this.cipher := config, values, cipher;
    }

    /** The search with its jump out of both loops. */
    method FindKind(name: string) returns (kind: string)
      requires config.Some?
      ensures kind == KindOf(config.value, name)
    {
      for g := 0 to |config.value|
        invariant KindOf(config.value, name) == KindOf(config.value[g..], name)
      {
        var items := config.value[g];
        for i := 0 to |items|
          invariant KindIn(items, name) == KindIn(items[i..], name)
        {
          if items[i].name == name {
            return items[i].kind;
          }
          assert items[i..][1..] == items[i + 1..];
        }
        assert config.value[g..][1..] == config.value[g + 1..];
      }
      return "";
    }

    /** Fails without changing a value when an entry with a plaintext is no password; without a
        configuration or without values there is nothing to do. */
    method EncryptConfigValues() returns (ok: bool)
      modifies this`values
      ensures config.None? || old(values).None? ==> ok && values == old(values)
      ensures config.Some? && old(values).Some? ==>
                && (ok <==> cipher.Some? && OnlyPasswords(config.value, old(values).value))
                && (ok ==> values == Some(EncryptAll(cipher.value, old(values).value)))
                && (ok ==> forall name :: name in old(values).value ==>
                      name in values.value && values.value[name] ==
                      var v := old(values).value[name];
                      if v.plaintext == "" then v else ConfigValue(cipher.value.encrypt(v.plaintext), ""))
      ensures ok && values.Some? ==> (NoPlaintext(values.value) <==> config.Some? || NoPlaintext(old(values).value))
      ensures !ok ==> values == old(values)
    {
      if values.None? || config.None? {
        return true;
      }
      if cipher.None? {
        return false;
      }
      var before := values.value;
      var updated: Values := map[];
      var rest := before.Keys;
      while rest != {}
        invariant rest <= before.Keys && updated.Keys == before.Keys - rest
        invariant forall name :: name in updated ==> updated[name] == Encrypted(cipher.value, before[name])
        invariant forall name :: name in updated && before[name].plaintext != "" ==>
                    KindOf(config.value, name) == "password"
        invariant values == old(values)
        decreases |rest|
      {
        var name :| name in rest;
        rest := rest - {name};
        updated := updated[name := before[name]];
        if before[name].plaintext != "" {
          var kind := FindKind(name);
          if kind != "password" {
            return false;
          }
          updated := updated[name := ConfigValue(cipher.value.encrypt(before[name].plaintext), "")];
        }
      }
      assert updated == EncryptAll(cipher.value, before);
      values := Some(updated);
      return true;
    }

    /** Entries whose value does not decode or decrypt stay as they are. */
    method DecryptConfigValues() returns (ok: bool)
      modifies this`values
      ensures old(values).None? ==> ok
      ensures old(values).Some? ==> (ok <==> cipher.Some?)
      ensures ok && old(values).Some? ==> values == Some(DecryptAll(cipher.value, old(values).value))
      ensures ok && old(values).Some? ==> forall name :: name in old(values).value ==>
                name in values.value && values.value[name] ==
                var v := old(values).value[name];
                if v.value == "" then v
                else match cipher.value.decrypt(v.value) case None => v case Some(p) => ConfigValue("", p)
      ensures !ok || old(values).None? ==> values == old(values)
    {
      if values.None? {
        return true;
      }
      if cipher.None? {
        return false;
      }
      var before := values.value;
      var updated: Values := map[];
      var rest := before.Keys;
      while rest != {}
        invariant rest <= before.Keys && updated.Keys == before.Keys - rest
        invariant forall name :: name in updated ==> updated[name] == Decrypted(cipher.value, before[name])
        decreases |rest|
      {
        var name :| name in rest;
        rest := rest - {name};
        updated := updated[name := before[name]];
        if before[name].value != "" {
          var decrypted := cipher.value.decrypt(before[name].value);
          if decrypted.Some? {
            updated := updated[name := ConfigValue("", decrypted.value)];
          }
        }
      }
      assert updated == DecryptAll(cipher.value, before);
      values := Some(updated);
      return true;
    }
  }

  // What they promise together

  /** After encrypting no plaintext is left, and decrypting gives every plaintext back with an empty
      value. */
  lemma EncryptThenDecrypt(cipher: Cipher, values: Values, name: string)
    requires Inverts(cipher) && name in values
    ensures NoPlaintext(EncryptAll(cipher, values))
    ensures values[name].plaintext != "" ==>
              DecryptAll(cipher, EncryptAll(cipher, values))[name] == ConfigValue("", values[name].plaintext)
    ensures values[name].plaintext == "" ==>
              DecryptAll(cipher, EncryptAll(cipher, values))[name] == Decrypted(cipher, values[name])
  {
    assert cipher.decrypt(cipher.encrypt(values[name].plaintext)) == Some(values[name].plaintext);
  }

  /** An entry that survives the round trip as it was: a plaintext without a value, or a value that does
      not decrypt to anything new. */
  predicate Survives(cipher: Cipher, v: ConfigValue) {
    if v.plaintext != "" then v.value == "" else Undecryptable(cipher, v)
  }

  /** Encrypting and decrypting gives all values back exactly when every entry survives. */
  lemma RoundTripIff(cipher: Cipher, values: Values)
    requires Inverts(cipher)
    ensures DecryptAll(cipher, EncryptAll(cipher, values)) == values <==>
            forall name | name in values :: Survives(cipher, values[name])
  {
    forall name | name in values
      ensures DecryptAll(cipher, EncryptAll(cipher, values))[name] == values[name] <==> Survives(cipher, values[name])
    {
      EncryptThenDecrypt(cipher, values, name);
    }
    var back := DecryptAll(cipher, EncryptAll(cipher, values));
    assert back.Keys == values.Keys;
    if forall name | name in values :: back[name] == values[name] {
      assert back == values;
    }
  }

  /** Both on one object. Without values nothing happens. Otherwise they succeed exactly with a cipher and,
      if there is a configuration, with plaintexts of password items only; a failure changes nothing.
      Then every entry that was encrypted has its plaintext back with an empty value, and every other
      one is as decrypting alone leaves it; all values are as before exactly when each entry alone is. */
  method EncryptAndDecrypt(kinds: KotsKinds) returns (ok: bool)
    requires kinds.cipher.Some? ==> Inverts(kinds.cipher.value)
    modifies kinds`values
    ensures old(kinds.values).None? ==> ok && kinds.values.None?
    ensures old(kinds.values).Some? ==>
              (ok <==> kinds.cipher.Some? && (kinds.config.Some? ==> OnlyPasswords(kinds.config.value, old(kinds.values).value)))
    ensures !ok ==> kinds.values == old(kinds.values)
    ensures ok && old(kinds.values).Some? ==>
              && kinds.values.Some? && kinds.values.value.Keys == old(kinds.values).value.Keys
              && forall name | name in kinds.values.value ::
                   kinds.values.value[name] ==
                   var before := old(kinds.values).value[name];
                   if kinds.config.Some? && before.plaintext != "" then ConfigValue("", before.plaintext)
                   else Decrypted(kinds.cipher.value, before)
    ensures ok && old(kinds.values).Some? ==>
              (kinds.values == old(kinds.values) <==>
               forall name | name in old(kinds.values).value ::
                 var before := old(kinds.values).value[name];
                 if kinds.config.Some? then Survives(kinds.cipher.value, before) else Undecryptable(kinds.cipher.value, before))
  {
    ok := kinds.EncryptConfigValues();
    if ok {
      ok := kinds.DecryptConfigValues();
    }
    if ok && old(kinds.values).Some? {
      ghost var before := old(kinds.values).value;
      if kinds.config.Some? {
        forall name | name in before
          ensures kinds.values.value[name] ==
                  if before[name].plaintext != "" then ConfigValue("", before[name].plaintext)
                  else Decrypted(kinds.cipher.value, before[name])
        {
          EncryptThenDecrypt(kinds.cipher.value, before, name);
        }
        RoundTripIff(kinds.cipher.value, before);
      } else {
        DecryptKeepsIff(kinds.cipher.value, before);
      }
    }
  }

  /** An entry that decrypting alone leaves as it is. */
  predicate Undecryptable(cipher: Cipher, v: ConfigValue) {
    v.value == "" || cipher.decrypt(v.value).None?
  }

  lemma DecryptKeepsIff(cipher: Cipher, values: Values)
    ensures DecryptAll(cipher, values) == values <==> forall name | name in values :: Undecryptable(cipher, values[name])
  {
    var back := DecryptAll(cipher, values);
    forall name | name in values ensures back[name] == values[name] <==> Undecryptable(cipher, values[name]) {
    }
    assert back.Keys == values.Keys;
    if forall name | name in values :: back[name] == values[name] {
      assert back == values;
    }
  }

  /** Success is no promise: without a configuration the plaintext of a password is left. */
  method PlaintextIsLeft(cipher: Option<Cipher>) returns (kinds: KotsKinds, ok: bool)
    ensures ok && kinds.values == Some(map["password" := ConfigValue("", "secret")])
    ensures kinds.values.Some? && !NoPlaintext(kinds.values.value)
  {
    kinds := new KotsKinds(None, Some(map["password" := ConfigValue("", "secret")]), cipher);
    ok := kinds.EncryptConfigValues();
    assert kinds.values.value["password"].plaintext == "secret";
  }
}
