// The label codec: class and field names between camel case and kebab case, labels to dotted
// keys and back.
module Labels {
  import opened Wrappers
  import opened Text

  predicate IsUpper(c: char) {
    'A' <= c <= 'Z'
  }

  predicate IsLower(c: char) {
    'a' <= c <= 'z'
  }

  function ToLower(c: char): (l: char)
    ensures IsUpper(c) ==> IsLower(l) && ToUpper(l) == c
    ensures !IsUpper(c) ==> l == c
  {
    if IsUpper(c) then (c as int + 32) as char else c
  }

  function ToUpper(c: char): (u: char)
    ensures !IsLower(c) ==> u == c
    ensures IsLower(c) ==> IsUpper(u)
  {
    if IsLower(c) then (c as int - 32) as char else c
  }

  /** `replace(/[A-Z]/g, m => '-' + m.toLowerCase())`. */
  function Dashed(name: string): string {
    if name == [] then []
    else (if IsUpper(name[0]) then ['-', ToLower(name[0])] else [name[0]]) + Dashed(name[1..])
  }

  /** `replace(/^-(.+)$/, '$1')`. */
  function DropDash(s: string): string {
    if |s| >= 2 && s[0] == '-' then s[1..] else s
  }

  function Kebab(name: string): string {
    DropDash(Dashed(name))
  }

  /** `replace(/-([a-z])/g, g => g[1].toUpperCase())`. */
  function Camel(s: string): string {
    if s == [] then []
    else if |s| >= 2 && s[0] == '-' && IsLower(s[1]) then [ToUpper(s[1])] + Camel(s[2..])
    else [s[0]] + Camel(s[1..])
  }

  /** The class name of a key: the first letter in upper case. */
  function ClassOf(s: string): string {
    var name := Camel(s);
    if name == [] then [] else [ToUpper(name[0])] + name[1..]
  }

  lemma {:induction false} CamelUndoesDashed(name: string)
    requires '-' !in name
    ensures Camel(Dashed(name)) == name
  {
    if name != [] {
      CamelUndoesDashed(name[1..]);
      var d := Dashed(name);
      if IsUpper(name[0]) {
        assert d[2..] == Dashed(name[1..]);
      } else {
        assert d[1..] == Dashed(name[1..]);
        assert name[0] != '-';
      }
      assert name == [name[0]] + name[1..];
    }
  }

  /** Field names come back when they do not start with an upper-case letter, and only then. */
  lemma FieldRoundTrip(name: string)
    requires '-' !in name && name != []
    ensures Camel(Kebab(name)) == name <==> !IsUpper(name[0])
  {
    CamelUndoesDashed(name);
    var d := Dashed(name);
    if IsUpper(name[0]) {
      assert d[1..] == [ToLower(name[0])] + Dashed(name[1..]);
      assert Camel(Kebab(name))[0] == ToLower(name[0]);
    } else {
      assert d[0] == name[0];
    }
  }

  /** Class names start with an upper-case letter, and come back. */
  lemma ClassRoundTrip(name: string)
    requires '-' !in name && name != [] && IsUpper(name[0])
    ensures ClassOf(Kebab(name)) == name
  {
    var d := Dashed(name);
    assert d[1..] == [ToLower(name[0])] + Dashed(name[1..]);
    assert Kebab(name)[1..] == Dashed(name[1..]);
    CamelUndoesDashed(name[1..]);
    assert Camel(Kebab(name)) == [ToLower(name[0])] + name[1..];
    assert name == [name[0]] + name[1..];
  }

  lemma {:induction false} KebabHasNoDot(name: string)
    ensures '.' in Dashed(name) <==> '.' in name
    ensures name != [] ==> Dashed(name) != []
  {
    if name != [] {
      KebabHasNoDot(name[1..]);
      assert name == [name[0]] + name[1..];
    }
  }

  // Labels.

  const CLASS_NAMES := ["MystIdentityModel", "VpnProviderModel", "ProxyDownstreamModel", "ProxyUpstreamModel"]

  predicate Known(namespace: string) {
    namespace in CLASS_NAMES
  }

  /** The fields the parser takes from a label of this class; every other field stays default. */
  function FieldsOf(namespace: string): set<string> {
    if namespace == "MystIdentityModel" then {"id", "identity", "passphrase"}
    else if namespace == "VpnProviderModel" then {"id", "userIdentity", "providerIdentity"}
    else {"id"}
  }

  /** One label: its class and the fields present in it. */
  datatype Label = Label(namespace: string, fields: map<string, string>)

  predicate Parsed(tag: Label) {
    Known(tag.namespace) && tag.fields.Keys <= FieldsOf(tag.namespace)
  }

  /** A name that survives the way through kebab case. */
  predicate FieldName(name: string) {
    name != [] && '-' !in name && '.' !in name && !IsUpper(name[0])
  }

  predicate ClassName(name: string) {
    name != [] && '-' !in name && '.' !in name && IsUpper(name[0])
  }

  lemma MystName()
    ensures ClassName("MystIdentityModel")
  {
  }

  lemma VpnName()
    ensures ClassName("VpnProviderModel")
  {
  }

  lemma DownstreamName()
    ensures ClassName("ProxyDownstreamModel")
  {
  }

  lemma UpstreamName()
    ensures ClassName("ProxyUpstreamModel")
  {
  }

  lemma KnownIsClassName(namespace: string)
    requires Known(namespace)
    ensures ClassName(namespace)
  {
    hide ClassName;
    MystName();
    VpnName();
    DownstreamName();
    UpstreamName();
  }

  lemma IdentityNames()
    ensures FieldName("id") && FieldName("identity") && FieldName("passphrase")
  {
  }

  lemma ProviderNames()
    ensures FieldName("userIdentity") && FieldName("providerIdentity")
  {
  }

  lemma ParsedNames(tag: Label)
    requires Parsed(tag)
    ensures ClassName(tag.namespace)
    ensures forall f :: f in tag.fields ==> FieldName(f)
  {
    hide ClassName, FieldName;
    KnownIsClassName(tag.namespace);
    IdentityNames();
    ProviderNames();
  }

  function Key(prefix: string, namespace: string, field: string): string {
    prefix + "." + Kebab(namespace) + "." + Kebab(field)
  }

  lemma KebabIsSegment(name: string)
    requires FieldName(name) || ClassName(name)
    ensures Kebab(name) != [] && '.' !in Kebab(name)
  {
    KebabHasNoDot(name);
    var d := Dashed(name);
    if |d| >= 2 && d[0] == '-' {
      assert forall c :: c in d[1..] ==> c in d;
    }
  }

  // Reading a key back with `^PREFIX\.([^.]+)\.([^.]+)`.

  function UpToDot(s: string): (r: string)
    ensures r <= s && '.' !in r && (r != s ==> s[|r|] == '.')
  {
    if s == [] || s[0] == '.' then [] else [s[0]] + UpToDot(s[1..])
  }

  lemma {:induction false} UpToDotOf(word: string, rest: string)
    requires '.' !in word && (rest == [] || rest[0] == '.')
    ensures UpToDot(word + rest) == word
  {
    if word == [] {
      assert word + rest == rest;
    } else {
      assert (word + rest)[0] == word[0] && (word + rest)[1..] == word[1..] + rest;
      UpToDotOf(word[1..], rest);
      assert word == [word[0]] + word[1..];
    }
  }

  /** The prefix as a regular expression: a dot in it stands for any character. */
  predicate MatchesPrefix(prefix: string, key: string) {
    && |key| > |prefix| && key[|prefix|] == '.'
    && forall i :: 0 <= i < |prefix| ==> prefix[i] == '.' || prefix[i] == key[i]
  }

  /** Class name and field of a matching key; the class is `None` when it is not a known one. */
  function ReadKey(prefix: string, key: string): Option<(Option<string>, string)> {
    if !MatchesPrefix(prefix, key) then None
    else
      var rest := key[|prefix| + 1..];
      var name := UpToDot(rest);
      if name == [] || name == rest then None
      else
        var field := UpToDot(rest[|name| + 1..]);
        if field == [] then None
        else Some((if Known(ClassOf(name)) then Some(ClassOf(name)) else None, Camel(field)))
  }

  lemma ReadSegments(prefix: string, name: string, last: string)
    requires name != [] && '.' !in name && last != [] && '.' !in last
    ensures ReadKey(prefix, prefix + "." + name + "." + last) ==
            Some((if Known(ClassOf(name)) then Some(ClassOf(name)) else None, Camel(last)))
  {
    hide ClassOf, Camel, Known;
    var rest := name + ("." + last);
    var key := prefix + "." + name + "." + last;
    assert key == prefix + ("." + rest);
    assert key[|prefix| + 1..] == rest;
    assert MatchesPrefix(prefix, key);
    UpToDotOf(name, "." + last);
    assert rest[|name| + 1..] == last;
    UpToDotOf(last, "");
    assert last + "" == last;
  }

  /** Encoding is injective on class and field: the key says both. */
  lemma ReadKeyOfKey(prefix: string, namespace: string, field: string)
    requires Known(namespace) && FieldName(field)
    ensures ReadKey(prefix, Key(prefix, namespace, field)) == Some((Some(namespace), field))
  {
    hide Known, Kebab, ReadKey;
    KnownIsClassName(namespace);
    KebabIsSegment(namespace);
    KebabIsSegment(field);
    ReadSegments(prefix, Kebab(namespace), Kebab(field));
    ClassRoundTrip(namespace);
    FieldRoundTrip(field);
  }

  lemma {:induction false} DashedWord(word: string, rest: string)
    requires forall c :: c in word ==> !IsUpper(c)
    ensures Dashed(word + rest) == word + Dashed(rest)
  {
    if word == [] {
      assert word + rest == rest;
    } else {
      assert (word + rest)[0] == word[0] && (word + rest)[1..] == word[1..] + rest;
      DashedWord(word[1..], rest);
      assert word == [word[0]] + word[1..];
    }
  }

  lemma DashedCapital(c: char, word: string, rest: string)
    requires IsUpper(c) && forall d :: d in word ==> !IsUpper(d)
    ensures Dashed([c] + word + rest) == "-" + [ToLower(c)] + word + Dashed(rest)
  {
    var name := [c] + word + rest;
    assert name[1..] == word + rest;
    DashedWord(word, rest);
  }

  /** A name of three capitalised words, as the class names are. */
  lemma KebabOfWords(a: char, u: string, b: char, v: string, c: char, w: string)
    requires IsUpper(a) && IsUpper(b) && IsUpper(c)
    requires forall d :: d in u || d in v || d in w ==> !IsUpper(d)
    ensures Kebab([a] + u + ([b] + v + ([c] + w))) == [ToLower(a)] + u + ("-" + [ToLower(b)] + v + ("-" + [ToLower(c)] + w))
  {
    hide Dashed, ToLower;
    var two, one := [b] + v + ([c] + w), [c] + w;
    assert one + [] == one;
    DashedCapital(a, u, two);
    DashedCapital(b, v, one);
    DashedCapital(c, w, []);
    DashedNothing();
    DashDrops([ToLower(a)] + u + Dashed(two));
  }

  lemma DashedNothing()
    ensures Dashed([]) == []
  {
  }

  lemma DashDrops(s: string)
    requires s != []
    ensures DropDash("-" + s) == s
  {
  }

  /** A field name of two words, the second one capitalised. */
  lemma KebabOfField(u: string, b: char, v: string)
    requires u != [] && u[0] != '-' && IsUpper(b) && forall d :: d in u + v ==> !IsUpper(d)
    ensures Kebab(u + [b] + v) == u + "-" + [ToLower(b)] + v && Kebab(u) == u
  {
    assert forall d :: d in u || d in v ==> d in u + v;
    assert u + [b] + v == u + ([b] + v) && [b] + v == [b] + v + [] && u + [] == u;
    DashedWord(u, [b] + v);
    DashedWord(u, []);
    DashedCapital(b, v, []);
  }

  lemma MystInFull()
    ensures Kebab("MystIdentityModel") == "myst-identity-model"
  {
    hide Kebab;
    KebabOfWords('M', "yst", 'I', "dentity", 'M', "odel");
    assert ['M'] + "yst" + (['I'] + "dentity" + (['M'] + "odel")) == "MystIdentityModel";
    assert [ToLower('M')] + "yst" + ("-" + [ToLower('I')] + "dentity" + ("-" + [ToLower('M')] + "odel")) == "myst-identity-model";
  }

  lemma VpnInFull()
    ensures Kebab("VpnProviderModel") == "vpn-provider-model"
  {
    hide Kebab;
    KebabOfWords('V', "pn", 'P', "rovider", 'M', "odel");
    assert ['V'] + "pn" + (['P'] + "rovider" + (['M'] + "odel")) == "VpnProviderModel";
    assert [ToLower('V')] + "pn" + ("-" + [ToLower('P')] + "rovider" + ("-" + [ToLower('M')] + "odel")) == "vpn-provider-model";
  }

  lemma DownstreamInFull()
    ensures Kebab("ProxyDownstreamModel") == "proxy-downstream-model"
  {
    hide Kebab;
    KebabOfWords('P', "roxy", 'D', "ownstream", 'M', "odel");
    assert ['P'] + "roxy" + (['D'] + "ownstream" + (['M'] + "odel")) == "ProxyDownstreamModel";
    assert [ToLower('P')] + "roxy" + ("-" + [ToLower('D')] + "ownstream" + ("-" + [ToLower('M')] + "odel")) == "proxy-downstream-model";
  }

  lemma UpstreamInFull()
    ensures Kebab("ProxyUpstreamModel") == "proxy-upstream-model"
  {
    hide Kebab;
    KebabOfWords('P', "roxy", 'U', "pstream", 'M', "odel");
    assert ['P'] + "roxy" + (['U'] + "pstream" + (['M'] + "odel")) == "ProxyUpstreamModel";
    assert [ToLower('P')] + "roxy" + ("-" + [ToLower('U')] + "pstream" + ("-" + [ToLower('M')] + "odel")) == "proxy-upstream-model";
  }

  lemma FieldsInFull()
    ensures Kebab("id") == "id" && Kebab("identity") == "identity" && Kebab("passphrase") == "passphrase"
    ensures Kebab("userIdentity") == "user-identity" && Kebab("providerIdentity") == "provider-identity"
  {
    hide Kebab;
    KebabOfField("id", 'I', "dentity");
    KebabOfField("identity", 'I', "dentity");
    KebabOfField("passphrase", 'I', "dentity");
    KebabOfField("user", 'I', "dentity");
    KebabOfField("provider", 'I', "dentity");
    assert "user" + ['I'] + "dentity" == "userIdentity" && "provider" + ['I'] + "dentity" == "providerIdentity";
    assert "user" + "-" + [ToLower('I')] + "dentity" == "user-identity";
    assert "provider" + "-" + [ToLower('I')] + "dentity" == "provider-identity";
  }

  lemma KeyOf(prefix: string, namespace: string, field: string, name: string, last: string)
    requires Kebab(namespace) == name && Kebab(field) == last
    ensures Key(prefix, namespace, field) == prefix + "." + name + "." + last
  {
  }

  /** The keys as Docker shows them. */
  lemma KeysInFull(prefix: string)
    ensures Key(prefix, "MystIdentityModel", "id") == prefix + "." + "myst-identity-model" + "." + "id"
    ensures Key(prefix, "MystIdentityModel", "identity") == prefix + "." + "myst-identity-model" + "." + "identity"
    ensures Key(prefix, "MystIdentityModel", "passphrase") == prefix + "." + "myst-identity-model" + "." + "passphrase"
    ensures Key(prefix, "VpnProviderModel", "id") == prefix + "." + "vpn-provider-model" + "." + "id"
    ensures Key(prefix, "VpnProviderModel", "userIdentity") == prefix + "." + "vpn-provider-model" + "." + "user-identity"
    ensures Key(prefix, "VpnProviderModel", "providerIdentity") == prefix + "." + "vpn-provider-model" + "." + "provider-identity"
    ensures Key(prefix, "ProxyDownstreamModel", "id") == prefix + "." + "proxy-downstream-model" + "." + "id"
    ensures Key(prefix, "ProxyUpstreamModel", "id") == prefix + "." + "proxy-upstream-model" + "." + "id"
  {
    hide Kebab, Key;
    MystInFull();
    VpnInFull();
    DownstreamInFull();
    UpstreamInFull();
    FieldsInFull();
    KeyOf(prefix, "MystIdentityModel", "id", "myst-identity-model", "id");
    KeyOf(prefix, "MystIdentityModel", "identity", "myst-identity-model", "identity");
    KeyOf(prefix, "MystIdentityModel", "passphrase", "myst-identity-model", "passphrase");
    KeyOf(prefix, "VpnProviderModel", "id", "vpn-provider-model", "id");
    KeyOf(prefix, "VpnProviderModel", "userIdentity", "vpn-provider-model", "user-identity");
    KeyOf(prefix, "VpnProviderModel", "providerIdentity", "vpn-provider-model", "provider-identity");
    KeyOf(prefix, "ProxyDownstreamModel", "id", "proxy-downstream-model", "id");
    KeyOf(prefix, "ProxyUpstreamModel", "id", "proxy-upstream-model", "id");
  }

  // `convertLabelToObject`.

  lemma KeysDiffer(prefix: string, tag: Label, f: string, g: string)
    requires Parsed(tag) && f in tag.fields && g in tag.fields && f != g
    ensures Key(prefix, tag.namespace, f) != Key(prefix, tag.namespace, g)
  {
    ParsedNames(tag);
    ReadKeyOfKey(prefix, tag.namespace, f);
    ReadKeyOfKey(prefix, tag.namespace, g);
  }

  function EncodeOne(prefix: string, tag: Label, ignore: set<string>): map<string, string>
    requires Parsed(tag)
  {
    assert forall f, g :: f in tag.fields && g in tag.fields && f != g ==>
                            Key(prefix, tag.namespace, f) != Key(prefix, tag.namespace, g) by {
      forall f, g | f in tag.fields && g in tag.fields && f != g
        ensures Key(prefix, tag.namespace, f) != Key(prefix, tag.namespace, g)
      {
        KeysDiffer(prefix, tag, f, g);
      }
    }
    map f | f in tag.fields && f !in ignore :: Key(prefix, tag.namespace, f) := tag.fields[f]
  }

  predicate AllParsed(labels: seq<Label>) {
    forall l :: l in labels ==> Parsed(l)
  }

  function Encode(prefix: string, labels: seq<Label>, ignore: set<string>): map<string, string>
    requires AllParsed(labels)
  {
    if labels == [] then map[]
    else
      var n := |labels| - 1;
      assert AllParsed(labels[..n]) by {
        assert forall l :: l in labels[..n] ==> l in labels;
      }
      Encode(prefix, labels[..n], ignore) + EncodeOne(prefix, labels[n], ignore)
  }

  ghost predicate DistinctNamespaces(labels: seq<Label>) {
    forall i, j :: 0 <= i < j < |labels| ==> labels[i].namespace != labels[j].namespace
  }

  /** Some label of the class has this field, it is not ignored, and this is its value. */
  ghost predicate SetField(labels: seq<Label>, ignore: set<string>, namespace: string, field: string, value: string) {
    exists l :: l in labels && l.namespace == namespace && field in l.fields && field !in ignore && l.fields[field] == value
  }

  ghost predicate Encodes(prefix: string, labels: seq<Label>, ignore: set<string>, obj: map<string, string>) {
    && (forall k :: k in obj ==> exists ns, f :: k == Key(prefix, ns, f) && SetField(labels, ignore, ns, f, obj[k]))
    && forall ns, f, v :: SetField(labels, ignore, ns, f, v) ==> Key(prefix, ns, f) in obj && obj[Key(prefix, ns, f)] == v
  }

  lemma SetFieldNames(labels: seq<Label>, ignore: set<string>, ns: string, f: string, v: string)
    requires AllParsed(labels) && SetField(labels, ignore, ns, f, v)
    ensures Known(ns) && FieldName(f)
  {
    var l :| l in labels && l.namespace == ns && f in l.fields && f !in ignore && l.fields[f] == v;
    ParsedNames(l);
  }

  lemma SetFieldSnoc(labels: seq<Label>, last: Label, ignore: set<string>, ns: string, f: string, v: string)
    ensures SetField(labels + [last], ignore, ns, f, v) <==>
            SetField(labels, ignore, ns, f, v) ||
            (last.namespace == ns && f in last.fields && f !in ignore && last.fields[f] == v)
  {
    assert forall l :: l in labels + [last] <==> l in labels || l == last;
  }

  lemma EncodeOneKey(prefix: string, tag: Label, ignore: set<string>, f: string)
    requires Parsed(tag) && f in tag.fields && f !in ignore
    ensures Key(prefix, tag.namespace, f) in EncodeOne(prefix, tag, ignore)
    ensures EncodeOne(prefix, tag, ignore)[Key(prefix, tag.namespace, f)] == tag.fields[f]
  {
    hide Key, ReadKey, FieldName, Parsed;
    var own, k := EncodeOne(prefix, tag, ignore), Key(prefix, tag.namespace, f);
    var g :| g in tag.fields && g !in ignore && Key(prefix, tag.namespace, g) == k && own[k] == tag.fields[g];
    if g != f {
      KeysDiffer(prefix, tag, f, g);
    }
  }

  lemma EncodeOneExact(prefix: string, tag: Label, ignore: set<string>, ns: string, f: string)
    requires Parsed(tag) && Known(ns) && FieldName(f)
    ensures Key(prefix, ns, f) in EncodeOne(prefix, tag, ignore) <==> tag.namespace == ns && f in tag.fields && f !in ignore
    ensures Key(prefix, ns, f) in EncodeOne(prefix, tag, ignore) ==>
              EncodeOne(prefix, tag, ignore)[Key(prefix, ns, f)] == tag.fields[f]
  {
    hide Key, ReadKey, FieldName;
    ParsedNames(tag);
    ReadKeyOfKey(prefix, ns, f);
    var own := EncodeOne(prefix, tag, ignore);
    if Key(prefix, ns, f) in own {
      var g :| g in tag.fields && g !in ignore && Key(prefix, ns, f) == Key(prefix, tag.namespace, g);
      ReadKeyOfKey(prefix, tag.namespace, g);
      EncodeOneKey(prefix, tag, ignore, g);
    }
  }

  /** The encoded pairs are the keys of the set fields with their values, and nothing else. */
  lemma {:induction false} EncodeExact(prefix: string, labels: seq<Label>, ignore: set<string>)
    requires AllParsed(labels) && DistinctNamespaces(labels)
    ensures Encodes(prefix, labels, ignore, Encode(prefix, labels, ignore))
  {
    hide Key, FieldName, Parsed, EncodeOne;
    if labels != [] {
      var n := |labels| - 1;
      var init, last := labels[..n], labels[n];
      assert labels == init + [last];
      assert AllParsed(init);
      EncodeExact(prefix, init, ignore);
      EncodeStep(prefix, init, last, ignore);
    }
  }

  lemma EncodeStep(prefix: string, init: seq<Label>, last: Label, ignore: set<string>)
    requires AllParsed(init + [last]) && DistinctNamespaces(init + [last]) && AllParsed(init)
    requires Encodes(prefix, init, ignore, Encode(prefix, init, ignore))
    ensures Parsed(last) && Encodes(prefix, init + [last], ignore, Encode(prefix, init, ignore) + EncodeOne(prefix, last, ignore))
  {
    assert last in init + [last];
    var before, own := Encode(prefix, init, ignore), EncodeOne(prefix, last, ignore);
    var obj := before + own;
    hide Key, FieldName, Parsed, SetField, Encode;
    forall k | k in obj
      ensures exists ns, f :: k == Key(prefix, ns, f) && SetField(init + [last], ignore, ns, f, obj[k])
    {
      if k in own {
        var f :| f in last.fields && f !in ignore && k == Key(prefix, last.namespace, f);
        SetFieldSnoc(init, last, ignore, last.namespace, f, obj[k]);
        EncodeOneKey(prefix, last, ignore, f);
      } else {
        var ns, f :| k == Key(prefix, ns, f) && SetField(init, ignore, ns, f, before[k]);
        SetFieldSnoc(init, last, ignore, ns, f, obj[k]);
      }
    }
    forall ns, f, v | SetField(init + [last], ignore, ns, f, v)
      ensures Key(prefix, ns, f) in obj && obj[Key(prefix, ns, f)] == v
    {
      SetFieldNames(init + [last], ignore, ns, f, v);
      SetFieldSnoc(init, last, ignore, ns, f, v);
      EncodeOneExact(prefix, last, ignore, ns, f);
      if SetField(init, ignore, ns, f, v) {
        OtherNamespace(init, last, ignore, ns, f, v);
      }
    }
  }

  lemma OtherNamespace(init: seq<Label>, last: Label, ignore: set<string>, ns: string, f: string, v: string)
    requires DistinctNamespaces(init + [last]) && SetField(init, ignore, ns, f, v)
    ensures last.namespace != ns
  {
    var l :| l in init && l.namespace == ns && f in l.fields && f !in ignore && l.fields[f] == v;
    var i :| 0 <= i < |init| && init[i] == l;
    assert (init + [last])[i].namespace != (init + [last])[|init|].namespace;
  }

  // `convertObjectToLabel`.

  /** A label read back; an unknown class name leaves the namespace undefined. */
  datatype Decoded = Decoded(namespace: Option<string>, fields: map<string, string>)

  /** Set a property on the first label of the class, or append a new label. */
  function Put(list: seq<Decoded>, ns: Option<string>, prop: string, value: string): seq<Decoded> {
    if list == [] then [Decoded(ns, map[prop := value])]
    else if list[0].namespace == ns then [list[0].(fields := list[0].fields[prop := value])] + list[1..]
    else [list[0]] + Put(list[1..], ns, prop, value)
  }

  function Lookup(list: seq<Decoded>, ns: Option<string>, prop: string): Option<string> {
    if list == [] then None
    else if list[0].namespace == ns then
      if prop in list[0].fields then Some(list[0].fields[prop]) else None
    else Lookup(list[1..], ns, prop)
  }

  /** Labels grouped by class: no class twice, no label without a field. */
  ghost predicate GroupedByClass(list: seq<Decoded>) {
    list == [] ||
    (list[0].fields != map[] && (forall d :: d in list[1..] ==> d.namespace != list[0].namespace) && GroupedByClass(list[1..]))
  }

  lemma {:induction false} PutNamespaces(list: seq<Decoded>, ns: Option<string>, prop: string, value: string)
    ensures forall d :: d in Put(list, ns, prop, value) ==> d.namespace == ns || exists e :: e in list && e.namespace == d.namespace
    ensures GroupedByClass(list) ==> GroupedByClass(Put(list, ns, prop, value))
  {
    var put := Put(list, ns, prop, value);
    if list == [] {
      assert prop in put[0].fields && put[1..] == [];
    } else {
      PutNamespaces(list[1..], ns, prop, value);
      assert list == [list[0]] + list[1..];
      if list[0].namespace == ns {
        assert put[1..] == list[1..] && prop in put[0].fields;
      } else {
        assert put[1..] == Put(list[1..], ns, prop, value);
      }
    }
  }

  lemma {:induction false} PutLookup(list: seq<Decoded>, ns: Option<string>, prop: string, value: string,
                                     ns': Option<string>, prop': string)
    ensures Lookup(Put(list, ns, prop, value), ns', prop') ==
            if ns' == ns && prop' == prop then Some(value) else Lookup(list, ns', prop')
  {
    if list != [] {
      PutLookup(list[1..], ns, prop, value, ns', prop');
      var put := Put(list, ns, prop, value);
      if list[0].namespace == ns {
        assert put[1..] == list[1..];
      } else {
        assert put[1..] == Put(list[1..], ns, prop, value);
      }
    }
  }

  /** The labels read from the keys of an object in the given order. */
  function DecodeKeys(prefix: string, keys: seq<string>, obj: map<string, string>): seq<Decoded>
    requires forall k :: k in keys ==> k in obj
  {
    if keys == [] then []
    else
      var n := |keys| - 1;
      assert keys == keys[..n] + [keys[n]];
      var before := DecodeKeys(prefix, keys[..n], obj);
      var read := ReadKey(prefix, keys[n]);
      if read.None? then before else Put(before, read.value.0, read.value.1, obj[keys[n]])
  }

  /** Different keys never name the same class and field. */
  ghost predicate ReadsUniquely(prefix: string, keys: seq<string>) {
    forall k, l :: k in keys && l in keys && ReadKey(prefix, k).Some? && ReadKey(prefix, k) == ReadKey(prefix, l) ==> k == l
  }

  lemma {:induction false} DecodeExact(prefix: string, keys: seq<string>, obj: map<string, string>)
    requires forall k :: k in keys ==> k in obj
    requires ReadsUniquely(prefix, keys)
    ensures GroupedByClass(DecodeKeys(prefix, keys, obj))
    ensures forall ns, f, v :: Lookup(DecodeKeys(prefix, keys, obj), ns, f) == Some(v) <==>
                               exists k :: k in keys && ReadKey(prefix, k) == Some((ns, f)) && obj[k] == v
  {
    hide ReadKey;
    if keys != [] {
      var n := |keys| - 1;
      var init, last := keys[..n], keys[n];
      assert keys == init + [last];
      assert ReadsUniquely(prefix, init) by {
        assert forall k :: k in init ==> k in keys;
      }
      DecodeExact(prefix, init, obj);
      var before, read := DecodeKeys(prefix, init, obj), ReadKey(prefix, last);
      if read.Some? {
        PutNamespaces(before, read.value.0, read.value.1, obj[last]);
      }
      forall ns, f, v
        ensures Lookup(DecodeKeys(prefix, keys, obj), ns, f) == Some(v) <==>
                exists k :: k in keys && ReadKey(prefix, k) == Some((ns, f)) && obj[k] == v
      {
        DecodeOneMore(prefix, init, last, obj, ns, f, v);
      }
    }
  }

  lemma DecodeOneMore(prefix: string, init: seq<string>, last: string, obj: map<string, string>,
                      ns: Option<string>, f: string, v: string)
    requires forall k :: k in init + [last] ==> k in obj
    requires ReadsUniquely(prefix, init + [last])
    requires Lookup(DecodeKeys(prefix, init, obj), ns, f) == Some(v) <==>
             exists k :: k in init && ReadKey(prefix, k) == Some((ns, f)) && obj[k] == v
    ensures Lookup(DecodeKeys(prefix, init + [last], obj), ns, f) == Some(v) <==>
            exists k :: k in init + [last] && ReadKey(prefix, k) == Some((ns, f)) && obj[k] == v
  {
    hide ReadKey;
    var keys := init + [last];
    assert keys[..|keys| - 1] == init && last in keys;
    assert forall k :: k in keys <==> k in init || k == last;
    var before, read := DecodeKeys(prefix, init, obj), ReadKey(prefix, last);
    if read.Some? {
      PutLookup(before, read.value.0, read.value.1, obj[last], ns, f);
    }
  }

  /** Every encoded key is read as the class and field it was made from. */
  lemma EncodedKeyReads(prefix: string, labels: seq<Label>, obj: map<string, string>, k: string)
    requires AllParsed(labels) && Encodes(prefix, labels, {}, obj) && k in obj
    ensures exists ns, f :: k == Key(prefix, ns, f) && SetField(labels, {}, ns, f, obj[k])
                            && ReadKey(prefix, k) == Some((Some(ns), f))
  {
    hide Key, ReadKey, SetField, FieldName;
    var ns, f :| k == Key(prefix, ns, f) && SetField(labels, {}, ns, f, obj[k]);
    SetFieldNames(labels, {}, ns, f, obj[k]);
    ReadKeyOfKey(prefix, ns, f);
  }

  lemma SetFieldKey(prefix: string, labels: seq<Label>, obj: map<string, string>, ns: string, f: string, v: string)
    requires AllParsed(labels) && Encodes(prefix, labels, {}, obj) && SetField(labels, {}, ns, f, v)
    ensures Key(prefix, ns, f) in obj && obj[Key(prefix, ns, f)] == v
    ensures ReadKey(prefix, Key(prefix, ns, f)) == Some((Some(ns), f))
  {
    hide Key, ReadKey, SetField, FieldName;
    SetFieldNames(labels, {}, ns, f, v);
    ReadKeyOfKey(prefix, ns, f);
  }

  /** The object holds the encoded labels, and beside them only keys that name no class and field. */
  ghost predicate Carries(prefix: string, labels: seq<Label>, obj: map<string, string>)
    requires AllParsed(labels)
  {
    var encoded := Encode(prefix, labels, {});
    forall k :: if k in encoded then k in obj && obj[k] == encoded[k] else k in obj ==> ReadKey(prefix, k) == None
  }

  /** The labels of the system beside the classes: the prefix and one word, as in `id`, `project`,
      `create-by` and `publish-port`, or one word alone, as in `autoheal`. */
  lemma PlainLabelsReadNothing(prefix: string, word: string)
    requires '.' !in word
    ensures ReadKey(prefix, prefix + "." + word) == None && ReadKey(prefix, word) == None
  {
    var key := prefix + "." + word;
    assert key == prefix + ("." + word);
    assert key[|prefix| + 1..] == word;
    UpToDotOf(word, "");
    assert word + "" == word;
  }

  lemma CarriedKeysReadUniquely(prefix: string, labels: seq<Label>, obj: map<string, string>, keys: seq<string>)
    requires AllParsed(labels) && DistinctNamespaces(labels) && Carries(prefix, labels, obj)
    requires forall k :: k in keys ==> k in obj
    ensures ReadsUniquely(prefix, keys)
  {
    hide Key, ReadKey, SetField, FieldName, Encodes, Encode;
    var encoded := Encode(prefix, labels, {});
    EncodeExact(prefix, labels, {});
    forall k, l | k in keys && l in keys && ReadKey(prefix, k).Some? && ReadKey(prefix, k) == ReadKey(prefix, l)
      ensures k == l
    {
      EncodedKeyReads(prefix, labels, encoded, k);
      EncodedKeyReads(prefix, labels, encoded, l);
    }
  }

  /** Decoding undoes encoding: for every prefix, every list of parsed labels with distinct classes,
      every object that carries them beside labels of no class, and every order of its keys, the labels
      read back hold exactly the set fields, each under its class, and no class twice. */
  lemma RoundTrip(prefix: string, labels: seq<Label>, obj: map<string, string>, keys: seq<string>)
    requires AllParsed(labels) && DistinctNamespaces(labels) && Carries(prefix, labels, obj)
    requires forall k :: k in keys <==> k in obj
    ensures var list := DecodeKeys(prefix, keys, obj);
            && GroupedByClass(list)
            && forall ns, f, v :: Lookup(list, ns, f) == Some(v) <==> ns.Some? && SetField(labels, {}, ns.value, f, v)
  {
    hide Key, ReadKey, SetField, Encode, FieldName, Encodes, GroupedByClass, Lookup, DecodeKeys;
    var encoded := Encode(prefix, labels, {});
    EncodeExact(prefix, labels, {});
    CarriedKeysReadUniquely(prefix, labels, obj, keys);
    DecodeExact(prefix, keys, obj);
    var list := DecodeKeys(prefix, keys, obj);
    forall ns, f, v
      ensures Lookup(list, ns, f) == Some(v) <==> ns.Some? && SetField(labels, {}, ns.value, f, v)
    {
      if Lookup(list, ns, f) == Some(v) {
        var k :| k in keys && ReadKey(prefix, k) == Some((ns, f)) && obj[k] == v;
        EncodedKeyReads(prefix, labels, encoded, k);
      }
      if ns.Some? && SetField(labels, {}, ns.value, f, v) {
        SetFieldKey(prefix, labels, encoded, ns.value, f, v);
      }
    }
  }

  // Filtering containers by label.

  /** Every pair of the filter is a pair of the container. */
  ghost predicate PairsMatch(filter: map<string, string>, container: map<string, string>) {
    forall k :: k in filter ==> k in container && container[k] == filter[k]
  }

  /** A label filter, encoded without the passphrase, selects a container exactly when every set
      filter field but the passphrase equals the container's field. */
  lemma FilterMeans(prefix: string, filter: seq<Label>, container: seq<Label>, obj: map<string, string>)
    requires AllParsed(filter) && DistinctNamespaces(filter)
    requires AllParsed(container) && DistinctNamespaces(container) && Carries(prefix, container, obj)
    ensures PairsMatch(Encode(prefix, filter, {"passphrase"}), obj) <==>
            forall ns, f, v :: SetField(filter, {"passphrase"}, ns, f, v) ==> SetField(container, {}, ns, f, v)
  {
    hide Key, ReadKey, SetField, Encode, FieldName, Encodes, Carries;
    var a := Encode(prefix, filter, {"passphrase"});
    EncodeExact(prefix, filter, {"passphrase"});
    if PairsMatch(a, obj) {
      forall ns, f, v | SetField(filter, {"passphrase"}, ns, f, v)
        ensures SetField(container, {}, ns, f, v)
      {
        FilterKey(prefix, filter, a, ns, f, v);
        CarriedField(prefix, container, obj, ns, f, v);
      }
    }
    if forall ns, f, v :: SetField(filter, {"passphrase"}, ns, f, v) ==> SetField(container, {}, ns, f, v) {
      forall k | k in a
        ensures k in obj && obj[k] == a[k]
      {
        var ns, f := FilterPair(prefix, filter, a, k);
        assert SetField(container, {}, ns, f, a[k]);
        CarriedField(prefix, container, obj, ns, f, a[k]);
      }
    }
  }

  lemma FilterKey(prefix: string, filter: seq<Label>, a: map<string, string>, ns: string, f: string, v: string)
    requires AllParsed(filter) && Encodes(prefix, filter, {"passphrase"}, a) && SetField(filter, {"passphrase"}, ns, f, v)
    ensures Key(prefix, ns, f) in a && a[Key(prefix, ns, f)] == v && Known(ns) && FieldName(f)
  {
    hide Key, SetField, FieldName;
    SetFieldNames(filter, {"passphrase"}, ns, f, v);
  }

  lemma FilterPair(prefix: string, filter: seq<Label>, a: map<string, string>, k: string) returns (ns: string, f: string)
    requires AllParsed(filter) && Encodes(prefix, filter, {"passphrase"}, a) && k in a
    ensures k == Key(prefix, ns, f) && SetField(filter, {"passphrase"}, ns, f, a[k]) && Known(ns) && FieldName(f)
  {
    hide Key, SetField, FieldName;
    ns, f :| k == Key(prefix, ns, f) && SetField(filter, {"passphrase"}, ns, f, a[k]);
    SetFieldNames(filter, {"passphrase"}, ns, f, a[k]);
  }

  /** A container's object has a pair for a field exactly when one of its labels has the field. */
  lemma CarriedField(prefix: string, labels: seq<Label>, obj: map<string, string>, ns: string, f: string, v: string)
    requires AllParsed(labels) && DistinctNamespaces(labels) && Carries(prefix, labels, obj) && Known(ns) && FieldName(f)
    ensures (Key(prefix, ns, f) in obj && obj[Key(prefix, ns, f)] == v) <==> SetField(labels, {}, ns, f, v)
  {
    hide Key, ReadKey, SetField, Encode, FieldName;
    var encoded, k := Encode(prefix, labels, {}), Key(prefix, ns, f);
    EncodeExact(prefix, labels, {});
    ReadKeyOfKey(prefix, ns, f);
    if k in obj && obj[k] == v {
      assert k in encoded;
      var ns', f' :| k == Key(prefix, ns', f') && SetField(labels, {}, ns', f', encoded[k]);
      SetFieldNames(labels, {}, ns', f', encoded[k]);
      ReadKeyOfKey(prefix, ns', f');
    }
  }

  ghost predicate PartOf(part: Label, whole: Label) {
    part.namespace == whole.namespace && forall f :: f in part.fields ==> f in whole.fields && whole.fields[f] == part.fields[f]
  }

  /** A container is found by any part of the labels it was made from. */
  lemma FoundByAnyPart(prefix: string, filter: seq<Label>, container: seq<Label>, obj: map<string, string>)
    requires AllParsed(filter) && DistinctNamespaces(filter)
    requires AllParsed(container) && DistinctNamespaces(container) && Carries(prefix, container, obj)
    requires forall l :: l in filter ==> exists c :: c in container && PartOf(l, c)
    ensures PairsMatch(Encode(prefix, filter, {"passphrase"}), obj)
  {
    FilterMeans(prefix, filter, container, obj);
    hide Encode, Carries;
    forall ns, f, v | SetField(filter, {"passphrase"}, ns, f, v)
      ensures SetField(container, {}, ns, f, v)
    {
      var l :| l in filter && l.namespace == ns && f in l.fields && f != "passphrase" && l.fields[f] == v;
      var c :| c in container && PartOf(l, c);
      assert f in c.fields;
    }
  }

  // The parser object.

  /** A label with the fields its class keeps. */
  function Fill(tag: Label): (model: Label)
    ensures Known(tag.namespace) ==> Parsed(model)
  {
    Label(tag.namespace, map f | f in tag.fields && f in FieldsOf(tag.namespace) :: tag.fields[f])
  }

  /** The model has the fields of the tag that are named here, and no others. */
  ghost predicate KeepsOnly(tag: Label, model: Label, named: set<string>) {
    && model.namespace == tag.namespace
    && (forall f :: f in model.fields <==> f in named && f in tag.fields)
    && forall f :: f in model.fields ==> model.fields[f] == tag.fields[f]
  }

  /** What each class keeps of its label. */
  ghost predicate Kept(tag: Label, model: Label) {
    && (tag.namespace == "MystIdentityModel" ==> KeepsOnly(tag, model, {"id", "identity", "passphrase"}))
    && (tag.namespace == "VpnProviderModel" ==> KeepsOnly(tag, model, {"id", "userIdentity", "providerIdentity"}))
    && (tag.namespace == "ProxyDownstreamModel" ==> KeepsOnly(tag, model, {"id"}))
    && (tag.namespace == "ProxyUpstreamModel" ==> KeepsOnly(tag, model, {"id"}))
  }

  lemma FillKeeps(tag: Label)
    ensures Kept(tag, Fill(tag))
  {
  }

  /** The models of the labels before the first one of an unknown class. */
  function ModelsOf(tags: seq<Label>): (models: seq<Label>)
    ensures AllParsed(models)
  {
    if tags == [] || !Known(tags[0].namespace) then [] else [Fill(tags[0])] + ModelsOf(tags[1..])
  }

  lemma {:induction false} ModelsSnoc(tags: seq<Label>, tag: Label)
    requires (forall t :: t in tags ==> Known(t.namespace)) && Known(tag.namespace)
    ensures ModelsOf(tags + [tag]) == ModelsOf(tags) + [Fill(tag)]
  {
    if tags == [] {
      assert tags + [tag] == [tag] && [tag][1..] == [];
    } else {
      assert (tags + [tag])[1..] == tags[1..] + [tag];
      ModelsSnoc(tags[1..], tag);
    }
  }

  lemma {:induction false} ModelsAreKept(tags: seq<Label>)
    requires forall t :: t in tags ==> Known(t.namespace)
    ensures |ModelsOf(tags)| == |tags|
    ensures forall i :: 0 <= i < |tags| ==> ModelsOf(tags)[i].namespace == tags[i].namespace && Kept(tags[i], ModelsOf(tags)[i])
  {
    hide Kept, Known, Fill;
    if tags != [] {
      ModelsAreKept(tags[1..]);
      FillKeeps(tags[0]);
      FillNamespace(tags[0]);
      assert ModelsOf(tags)[1..] == ModelsOf(tags[1..]);
    }
  }

  lemma FillNamespace(tag: Label)
    ensures Fill(tag).namespace == tag.namespace
  {
  }

  lemma {:induction false} ModelsStop(tags: seq<Label>, i: nat)
    requires i < |tags| && !Known(tags[i].namespace) && forall t :: t in tags[..i] ==> Known(t.namespace)
    ensures ModelsOf(tags) == ModelsOf(tags[..i])
  {
    if i > 0 {
      assert tags[..i][0] == tags[0] && tags[..i][1..] == tags[1..][..i - 1];
      assert tags[0] in tags[..i];
      ModelsStop(tags[1..], i - 1);
    }
  }

  /** A tag of the class sets the field to the value. */
  ghost predicate Tagged(tags: seq<Label>, namespace: string, field: string, value: string) {
    exists t :: t in tags && t.namespace == namespace && field in t.fields && t.fields[field] == value
  }

  lemma SetFieldOfTags(tags: seq<Label>, ns: string, named: set<string>, f: string, v: string)
    requires forall t :: t in tags ==> Known(t.namespace)
    requires forall t, m :: t in tags && t.namespace == ns && Kept(t, m) ==> KeepsOnly(t, m, named)
    ensures SetField(ModelsOf(tags), {}, ns, f, v) <==> f in named && Tagged(tags, ns, f, v)
  {
    ModelsAreKept(tags);
    hide Known, Kept, Fill, ModelsOf;
    var models := ModelsOf(tags);
    if SetField(models, {}, ns, f, v) {
      var l :| l in models && l.namespace == ns && f in l.fields && f !in {} && l.fields[f] == v;
      var i :| 0 <= i < |models| && models[i] == l;
      assert Kept(tags[i], l);
      assert KeepsOnly(tags[i], l, named);
    }
    if f in named && Tagged(tags, ns, f, v) {
      var t :| t in tags && t.namespace == ns && f in t.fields && t.fields[f] == v;
      var i :| 0 <= i < |tags| && tags[i] == t;
      assert Kept(t, models[i]);
      assert KeepsOnly(t, models[i], named);
      assert models[i] in models;
    }
  }

  lemma ModelsDistinct(tags: seq<Label>)
    requires (forall t :: t in tags ==> Known(t.namespace)) && DistinctNamespaces(tags)
    ensures DistinctNamespaces(ModelsOf(tags))
  {
    ModelsAreKept(tags);
  }

  /** The way of the tags of one class. */
  lemma ClassComesBack(prefix: string, tags: seq<Label>, obj: map<string, string>, keys: seq<string>,
                       ns: string, named: set<string>, f: string, v: string)
    requires forall t :: t in tags ==> Known(t.namespace)
    requires DistinctNamespaces(tags) && Carries(prefix, ModelsOf(tags), obj)
    requires forall k :: k in keys <==> k in obj
    requires forall t, m :: t in tags && t.namespace == ns && Kept(t, m) ==> KeepsOnly(t, m, named)
    ensures Lookup(DecodeKeys(prefix, keys, obj), Some(ns), f) == Some(v) <==> f in named && Tagged(tags, ns, f, v)
  {
    hide SetField, Carries, DecodeKeys, Lookup, Fill, Kept, KeepsOnly, ModelsOf, Tagged, Known, DistinctNamespaces, GroupedByClass;
    ModelsDistinct(tags);
    RoundTrip(prefix, ModelsOf(tags), obj, keys);
    SetFieldOfTags(tags, ns, named, f, v);
  }

  /** From the tags to the labels read back: for every prefix, every list of tags with distinct known
      classes, every object that carries their models beside labels of no class, and every order of its
      keys, the label read back under a class has exactly the fields that the class keeps and a tag of
      the class sets, with their values, and there is no label of another class. */
  lemma TagsComeBack(prefix: string, tags: seq<Label>, obj: map<string, string>, keys: seq<string>, f: string, v: string)
    requires forall t :: t in tags ==> Known(t.namespace)
    requires DistinctNamespaces(tags) && Carries(prefix, ModelsOf(tags), obj)
    requires forall k :: k in keys <==> k in obj
    ensures Lookup(DecodeKeys(prefix, keys, obj), Some("MystIdentityModel"), f) == Some(v) <==>
            f in {"id", "identity", "passphrase"} && Tagged(tags, "MystIdentityModel", f, v)
    ensures Lookup(DecodeKeys(prefix, keys, obj), Some("VpnProviderModel"), f) == Some(v) <==>
            f in {"id", "userIdentity", "providerIdentity"} && Tagged(tags, "VpnProviderModel", f, v)
    ensures Lookup(DecodeKeys(prefix, keys, obj), Some("ProxyDownstreamModel"), f) == Some(v) <==>
            f in {"id"} && Tagged(tags, "ProxyDownstreamModel", f, v)
    ensures Lookup(DecodeKeys(prefix, keys, obj), Some("ProxyUpstreamModel"), f) == Some(v) <==>
            f in {"id"} && Tagged(tags, "ProxyUpstreamModel", f, v)
  {
    hide SetField, Carries, DecodeKeys, Lookup, Fill, KeepsOnly, ModelsOf, Tagged, Known, DistinctNamespaces;
    ClassComesBack(prefix, tags, obj, keys, "MystIdentityModel", {"id", "identity", "passphrase"}, f, v);
    ClassComesBack(prefix, tags, obj, keys, "VpnProviderModel", {"id", "userIdentity", "providerIdentity"}, f, v);
    ClassComesBack(prefix, tags, obj, keys, "ProxyDownstreamModel", {"id"}, f, v);
    ClassComesBack(prefix, tags, obj, keys, "ProxyUpstreamModel", {"id"}, f, v);
  }

  /** There is no label of another class, and none without one. */
  lemma NoOtherClass(prefix: string, tags: seq<Label>, obj: map<string, string>, keys: seq<string>, ns: Option<string>, f: string)
    requires forall t :: t in tags ==> Known(t.namespace)
    requires DistinctNamespaces(tags) && Carries(prefix, ModelsOf(tags), obj)
    requires forall k :: k in keys <==> k in obj
    ensures Lookup(DecodeKeys(prefix, keys, obj), ns, f).Some? ==>
              ns.Some? && ns.value in ["MystIdentityModel", "VpnProviderModel", "ProxyDownstreamModel", "ProxyUpstreamModel"]
  {
    hide SetField, Carries, DecodeKeys, Lookup, Fill, ModelsOf, DistinctNamespaces, GroupedByClass, FieldName;
    ModelsDistinct(tags);
    RoundTrip(prefix, ModelsOf(tags), obj, keys);
    var found := Lookup(DecodeKeys(prefix, keys, obj), ns, f);
    if found.Some? {
      SetFieldNames(ModelsOf(tags), {}, ns.value, f, found.value);
    }
  }

  /** `null`, one label or a list of labels. */
  datatype LabelResult = NoLabel | OneLabel(only: Decoded) | ManyLabels(list: seq<Decoded>)

  class DockerLabelParser {
    const tags: seq<Label>
    var models: seq<Label>

    constructor (tags: seq<Label>)
      ensures this.tags == tags && models == []
    {
      this.tags, models := tags, [];
    }

    method FillLabel(tag: Label) returns (model: Label)
      requires Known(tag.namespace)
      ensures model == Fill(tag)
      ensures Kept(tag, model)
    {
      var fields: map<string, string> := map[];
      if "id" in tag.fields {
        fields := fields["id" := tag.fields["id"]];
      }
      if tag.namespace == "MystIdentityModel" {
        if "identity" in tag.fields {
          fields := fields["identity" := tag.fields["identity"]];
        }
        if "passphrase" in tag.fields {
          fields := fields["passphrase" := tag.fields["passphrase"]];
        }
      }
      if tag.namespace == "VpnProviderModel" {
        if "userIdentity" in tag.fields {
          fields := fields["userIdentity" := tag.fields["userIdentity"]];
        }
        if "providerIdentity" in tag.fields {
          fields := fields["providerIdentity" := tag.fields["providerIdentity"]];
        }
      }
      model := Label(tag.namespace, fields);
      assert fields == Fill(tag).fields;
    }

    /** `parseLabel`: one model for each label, up to the first label of an unknown class. */
    method ParseLabel() returns (ok: bool)
      modifies this`models
      ensures var four := {"MystIdentityModel", "VpnProviderModel", "ProxyDownstreamModel", "ProxyUpstreamModel"};
              ok <==> forall t :: t in tags ==> t.namespace in four
      ensures models == old(models) + ModelsOf(tags)
      ensures ok ==> |models| == |old(models)| + |tags|
      ensures ok ==> forall i :: 0 <= i < |tags| ==> Kept(tags[i], models[|old(models)| + i])
    {
      hide Kept;
      for i := 0 to |tags|
        invariant forall t :: t in tags[..i] ==> Known(t.namespace)
        invariant models == old(models) + ModelsOf(tags[..i])
      {
        if !Known(tags[i].namespace) {
          ModelsStop(tags, i);
          return false;
        }
        var model := FillLabel(tags[i]);
        models := models + [model];
        TakeNext(tags, i);
        ModelsSnoc(tags[..i], tags[i]);
      }
      assert tags[..|tags|] == tags;
      ModelsAreKept(tags);
      ok := true;
    }

    /** `_convertLabelToObject` on one model: one key for each set field that is not ignored. */
    method ConvertModel(obj: map<string, string>, prefix: string, model: Label, ignore: set<string>)
        returns (grown: map<string, string>)
      requires Parsed(model)
      ensures grown == obj + EncodeOne(prefix, model, ignore)
    {
      hide Key, EncodeOne, FieldsOf, Known;
      grown := obj;
      var rest := model.fields.Keys;
      ghost var done := Label(model.namespace, map[]);
      EncodeNothing(prefix, done, ignore);
      while rest != {}
        invariant rest <= model.fields.Keys && done == Label(model.namespace, model.fields - rest)
        invariant Parsed(done) && grown == obj + EncodeOne(prefix, done, ignore)
        decreases |rest|
      {
        var f :| f in rest;
        ghost var more := Label(model.namespace, done.fields[f := model.fields[f]]);
        RestoreKey(model.fields, rest, f);
        EncodeOneMore(prefix, done, more, f, ignore);
        UpdateSum(obj, EncodeOne(prefix, done, ignore), Key(prefix, model.namespace, f), model.fields[f]);
        done := more;
        if f !in ignore {
          grown := grown[Key(prefix, model.namespace, f) := model.fields[f]];
        }
        rest := rest - {f};
      }
      assert model.fields - rest == model.fields && done == model;
    }

    method ConvertLabelToObject(prefix: string, ignore: set<string>) returns (obj: map<string, string>)
      requires AllParsed(models)
      ensures obj == Encode(prefix, models, ignore)
    {
      obj := map[];
      for i := 0 to |models|
        invariant AllParsed(models[..i]) && obj == Encode(prefix, models[..i], ignore)
      {
        TakeNext(models, i);
        assert models[i] in models;
        obj := ConvertModel(obj, prefix, models[i], ignore);
      }
      assert models[..|models|] == models;
    }

    /** `convertObjectToLabel` over the keys of the object in their order. */
    static method ConvertObjectToLabel(prefix: string, keys: seq<string>, obj: map<string, string>)
        returns (r: LabelResult)
      requires forall k :: k in keys ==> k in obj
      ensures var list := DecodeKeys(prefix, keys, obj);
              && (r.NoLabel? <==> list == [])
              && (forall d :: r == OneLabel(d) <==> list == [d])
              && (forall l :: r == ManyLabels(l) <==> l == list && |list| > 1)
    {
      hide ReadKey;
      var list: seq<Decoded> := [];
      for i := 0 to |keys|
        invariant list == DecodeKeys(prefix, keys[..i], obj)
      {
        TakeNext(keys, i);
        var read := ReadKey(prefix, keys[i]);
        if read.Some? {
          var (namespace, property) := read.value;
          var j := 0;
          while j < |list| && list[j].namespace != namespace
            invariant 0 <= j <= |list|
            invariant forall m :: 0 <= m < j ==> list[m].namespace != namespace
          {
            j := j + 1;
          }
          PutAt(list, namespace, property, obj[keys[i]], j);
          if j == |list| {
            list := list + [Decoded(namespace, map[property := obj[keys[i]]])];
          } else {
            list := list[j := list[j].(fields := list[j].fields[property := obj[keys[i]]])];
          }
        }
      }
      assert keys[..|keys|] == keys;
      if |list| == 0 {
        return NoLabel;
      }
      if |list| == 1 {
        return OneLabel(list[0]);
      }
      return ManyLabels(list);
    }
  }

  lemma RestoreKey(m: map<string, string>, rest: set<string>, f: string)
    requires f in rest && f in m
    ensures m - (rest - {f}) == (m - rest)[f := m[f]] && f !in m - rest
  {
  }

  lemma UpdateSum(a: map<string, string>, b: map<string, string>, k: string, v: string)
    ensures a + b[k := v] == (a + b)[k := v]
  {
  }

  lemma EncodeNothing(prefix: string, tag: Label, ignore: set<string>)
    requires Known(tag.namespace) && tag.fields == map[]
    ensures Parsed(tag) && EncodeOne(prefix, tag, ignore) == map[]
  {
  }

  lemma EncodeOneMore(prefix: string, done: Label, more: Label, f: string, ignore: set<string>)
    requires Parsed(done) && Parsed(more) && done.namespace == more.namespace && f !in done.fields
    requires f in more.fields && more.fields == done.fields[f := more.fields[f]]
    ensures EncodeOne(prefix, more, ignore) ==
            if f in ignore then EncodeOne(prefix, done, ignore)
            else EncodeOne(prefix, done, ignore)[Key(prefix, more.namespace, f) := more.fields[f]]
  {
    hide Key;
    var a, b := EncodeOne(prefix, done, ignore), EncodeOne(prefix, more, ignore);
    forall g | g in more.fields && g !in ignore
      ensures Key(prefix, more.namespace, g) in b && b[Key(prefix, more.namespace, g)] == more.fields[g]
    {
      EncodeOneKey(prefix, more, ignore, g);
    }
    forall g | g in done.fields && g !in ignore
      ensures Key(prefix, done.namespace, g) in a && a[Key(prefix, done.namespace, g)] == done.fields[g]
      ensures Key(prefix, done.namespace, g) != Key(prefix, done.namespace, f)
    {
      EncodeOneKey(prefix, done, ignore, g);
      KeysDiffer(prefix, more, g, f);
    }
  }

  lemma {:induction false} PutAt(list: seq<Decoded>, ns: Option<string>, prop: string, value: string, j: nat)
    requires j <= |list| && forall m :: 0 <= m < j ==> list[m].namespace != ns
    requires j == |list| || list[j].namespace == ns
    ensures Put(list, ns, prop, value) ==
            if j == |list| then list + [Decoded(ns, map[prop := value])]
            else list[j := list[j].(fields := list[j].fields[prop := value])]
  {
    if j > 0 {
      PutAt(list[1..], ns, prop, value, j - 1);
      assert list == [list[0]] + list[1..];
    }
  }
}
