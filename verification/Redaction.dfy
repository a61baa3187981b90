/** src/util.rs `redact_sensitive_json` and src/main.rs `redact_config_secrets`. */
module Redaction {
  import opened Text
  import opened TextMeaning
  import opened Json

  /** Which object values are masked, and with what. */
  datatype Policy = Policy(hides: string -> bool, mask: Value -> Value)

  /** Both redactions: masked where the key says so, descending everywhere else. */
  function Redact(p: Policy, v: Value): Value
    decreases v
  {
    match v
    case Obj(m) => Obj(map k | k in m :: if p.hides(k) then p.mask(m[k]) else Redact(p, m[k]))
    case Arr(items) => Arr(seq(|items|, i requires 0 <= i < |items| => Redact(p, items[i])))
    case _ => v
  }

  // ----- src/util.rs ------------------------------------------------------------------------------------

  /** `SENSITIVE_KEY_PARTS`. */
  const SENSITIVE_KEY_PARTS: seq<string> :=
    ["password", "passwd", "secret", "token", "api_key", "apikey", "credential"]

  predicate Sensitive(key: string) {
    exists part | part in SENSITIVE_KEY_PARTS :: Contains(Lower(key), part)
  }

  function Hidden(v: Value): Value { Str("[REDACTED]") }

  /** `redact_sensitive_json` is `Redact` with this policy. */
  function LogPolicy(): Policy { Policy(Sensitive, Hidden) }

  // ----- src/main.rs ------------------------------------------------------------------------------------

  /** `REDACTED_CONFIG_KEYS`. */
  const REDACTED_CONFIG_KEYS: seq<string> :=
    ["api_key", "api_keys", "bot_token", "paired_tokens", "db_url", "http_proxy", "https_proxy", "all_proxy",
     "secret_key", "webhook_secret"]

  predicate ConfigKey(key: string) { key in REDACTED_CONFIG_KEYS }

  /** Empty values, numbers and whole objects stay readable. */
  function Masked(v: Value): Value {
    match v
    case Str(s) => if s != [] then Str("***REDACTED***") else v
    case Arr(items) => if items != [] then Arr([Str("***REDACTED***")]) else v
    case _ => v
  }

  function ConfigPolicy(): Policy { Policy(ConfigKey, Masked) }

  /** `redact_config_secrets`: every field and every item in turn. */
  method RedactConfigSecrets(value: Value) returns (r: Value)
    ensures r == Redact(ConfigPolicy(), value)
    decreases value, 1
  {
    hide ConfigPolicy;
    match value
    case Obj(_) => r := RedactFields(value);
    case Arr(_) => r := RedactItems(value);
    case _ => r := value;
  }

  method RedactFields(value: Value) returns (r: Value)
    requires value.Obj?
    ensures r == Redact(ConfigPolicy(), value)
    decreases value, 0
  {
    hide ConfigKey, Masked, Redact;
    var m := value.fields;
    var fields := m;
    var left := m.Keys;
    while left != {}
      invariant left <= m.Keys && fields.Keys == m.Keys
      invariant forall k | k in left :: fields[k] == m[k]
      invariant forall k | k in m.Keys - left :: fields[k] == RedactedAt(ConfigPolicy(), m, k)
      decreases |left|
    {
      var k :| k in left;
      if ConfigKey(k) {
        fields := fields[k := Masked(m[k])];
      } else {
        var inner := RedactConfigSecrets(m[k]);
        fields := fields[k := inner];
      }
      left := left - {k};
    }
    r := Obj(fields);
    RedactedFields(ConfigPolicy(), value, fields);
  }

  method RedactItems(value: Value) returns (r: Value)
    requires value.Arr?
    ensures r == Redact(ConfigPolicy(), value)
    decreases value, 0
  {
    hide ConfigPolicy;
    var items := value.items;
    var out := items;
    for i := 0 to |items|
      invariant |out| == |items|
      invariant forall k | i <= k < |items| :: out[k] == items[k]
      invariant forall k | 0 <= k < i :: out[k] == Redact(ConfigPolicy(), items[k])
    {
      hide Redact;
      var inner := RedactConfigSecrets(items[i]);
      out := out[i := inner];
    }
    r := Arr(out);
    assert out == Redact(ConfigPolicy(), value).items;
  }

  function RedactedAt(p: Policy, m: map<string, Value>, k: string): Value
    requires k in m
  {
    if p.hides(k) then p.mask(m[k]) else Redact(p, m[k])
  }

  lemma RedactedFields(p: Policy, v: Value, fields: map<string, Value>)
    requires v.Obj? && fields.Keys == v.fields.Keys
    requires forall k | k in v.fields :: fields[k] == RedactedAt(p, v.fields, k)
    ensures Redact(p, v) == Obj(fields)
  {
    assert Redact(p, v).fields == fields;
  }

  // ----- what a redacted value tells ----------------------------------------------------------------------

  /** The two values are the same as far as unmasked keys go. */
  ghost predicate Agree(p: Policy, a: Value, b: Value)
    decreases a
  {
    match a
    case Obj(m) =>
      && b.Obj? && b.fields.Keys == m.Keys
      && forall k | k in m :: if p.hides(k) then p.mask(m[k]) == p.mask(b.fields[k]) else Agree(p, m[k], b.fields[k])
    case Arr(items) =>
      b.Arr? && |b.items| == |items| && forall i | 0 <= i < |items| :: Agree(p, items[i], b.items[i])
    case _ => a == b
  }

  /** A redacted value tells nothing about masked values and everything about the rest. */
  lemma {:induction false} RedactionIsExact(p: Policy, a: Value, b: Value)
    ensures Redact(p, a) == Redact(p, b) <==> Agree(p, a, b)
    decreases a
  {
    match a
    case Obj(m) =>
      if b.Obj? && b.fields.Keys == m.Keys {
        forall k | k in m && !p.hides(k)
          ensures Redact(p, m[k]) == Redact(p, b.fields[k]) <==> Agree(p, m[k], b.fields[k])
        {
          RedactionIsExact(p, m[k], b.fields[k]);
        }
        SameFields(p, a, b);
      } else if b.Obj? {
        assert Redact(p, a).fields.Keys == m.Keys && Redact(p, b).fields.Keys == b.fields.Keys;
      }
    case Arr(items) =>
      if b.Arr? && |b.items| == |items| {
        forall i | 0 <= i < |items|
          ensures Redact(p, items[i]) == Redact(p, b.items[i]) <==> Agree(p, items[i], b.items[i])
        {
          RedactionIsExact(p, items[i], b.items[i]);
        }
        SameItems(p, items, b.items);
      } else if b.Arr? {
        assert |Redact(p, a).items| == |items| && |Redact(p, b).items| == |b.items|;
      }
    case _ =>
  }

  /** Field by field. */
  lemma SameFields(p: Policy, a: Value, b: Value)
    requires a.Obj? && b.Obj? && a.fields.Keys == b.fields.Keys
    ensures Redact(p, a) == Redact(p, b) <==>
      forall k | k in a.fields :: RedactedAt(p, a.fields, k) == RedactedAt(p, b.fields, k)
  {
    var x := map k | k in a.fields :: RedactedAt(p, a.fields, k);
    var y := map k | k in b.fields :: RedactedAt(p, b.fields, k);
    RedactedFields(p, a, x);
    RedactedFields(p, b, y);
    hide Redact, RedactedAt;
    assert x.Keys == y.Keys == a.fields.Keys;
    assert x == y <==> forall k | k in a.fields :: x[k] == y[k];
  }

  lemma SameItems(p: Policy, a: seq<Value>, b: seq<Value>)
    requires |a| == |b|
    ensures Redact(p, Arr(a)) == Redact(p, Arr(b)) <==> forall i | 0 <= i < |a| :: Redact(p, a[i]) == Redact(p, b[i])
  {
    var x, y := Redact(p, Arr(a)).items, Redact(p, Arr(b)).items;
    assert Redact(p, Arr(a)) == Arr(x) && Redact(p, Arr(b)) == Arr(y);
    assert forall i | 0 <= i < |a| :: x[i] == Redact(p, a[i]) && y[i] == Redact(p, b[i]);
    assert x == y <==> forall i | 0 <= i < |a| :: x[i] == y[i];
  }

  /** A mask leaves a masked value alone. */
  ghost predicate MaskSettles(p: Policy) { forall v :: p.mask(p.mask(v)) == p.mask(v) }

  /** A second redaction finds nothing to do. */
  lemma {:induction false} RedactIsIdempotent(p: Policy, v: Value)
    requires MaskSettles(p)
    ensures Agree(p, Redact(p, v), v) && Redact(p, Redact(p, v)) == Redact(p, v)
    decreases v
  {
    match v {
      case Obj(m) =>
        forall k | k in m && !p.hides(k) ensures Agree(p, Redact(p, m[k]), m[k]) { RedactIsIdempotent(p, m[k]); }
      case Arr(items) =>
        forall i | 0 <= i < |items| ensures Agree(p, Redact(p, items[i]), items[i]) { RedactIsIdempotent(p, items[i]); }
      case _ =>
    }
    RedactionIsExact(p, Redact(p, v), v);
  }

  /** Both redactions are idempotent. */
  lemma RedactionsSettle(v: Value)
    ensures Redact(LogPolicy(), Redact(LogPolicy(), v)) == Redact(LogPolicy(), v)
    ensures Redact(ConfigPolicy(), Redact(ConfigPolicy(), v)) == Redact(ConfigPolicy(), v)
  {
    RedactIsIdempotent(LogPolicy(), v);
    RedactIsIdempotent(ConfigPolicy(), v);
  }

  // ----- what shows of secrets ------------------------------------------------------------------------------

  /** A text or a list that is not empty. */
  predicate IsSecretText(v: Value) { v.Str? && v.s != "" }

  predicate IsSecretList(v: Value) { v.Arr? && v.items != [] }

  /** Under a secret configuration key any two texts look alike, and any two lists, and nothing of them
      shows; an empty one, a number, a flag or a whole object shows as it is. */
  lemma ConfigSecretsAreHidden(m: map<string, Value>, key: string, a: Value, b: Value)
    requires ConfigKey(key)
    ensures var p := ConfigPolicy();
      && ((IsSecretText(a) && IsSecretText(b)) || (IsSecretList(a) && IsSecretList(b)) ==>
            Redact(p, Obj(m[key := a])) == Redact(p, Obj(m[key := b])))
      && (IsSecretText(a) ==> Redact(p, Obj(m[key := a])).fields[key] == Str("***REDACTED***"))
      && (IsSecretList(a) ==> Redact(p, Obj(m[key := a])).fields[key] == Arr([Str("***REDACTED***")]))
      && (!IsSecretText(a) && !IsSecretList(a) ==> Redact(p, Obj(m[key := a])).fields[key] == a)
  {
    hide ConfigKey;
    var p := ConfigPolicy();
    if (IsSecretText(a) && IsSecretText(b)) || (IsSecretList(a) && IsSecretList(b)) {
      assert Redact(p, Obj(m[key := a])).fields == Redact(p, Obj(m[key := b])).fields;
    }
  }

  /** Under a sensitive key any two values look alike in a log. */
  lemma LogSecretsAreHidden(m: map<string, Value>, key: string, a: Value, b: Value)
    requires Sensitive(key)
    ensures Redact(LogPolicy(), Obj(m[key := a])) == Redact(LogPolicy(), Obj(m[key := b]))
    ensures Redact(LogPolicy(), Obj(m[key := a])).fields[key] == Str("[REDACTED]")
  {
    hide Sensitive;
    var p := LogPolicy();
    assert Redact(p, Obj(m[key := a])).fields == Redact(p, Obj(m[key := b])).fields;
  }

  /** A key is sensitive when one of the parts stands in it somewhere, in any case. */
  lemma SensitiveIff(key: string)
    ensures Sensitive(key)
       <==> exists part, i | part in SENSITIVE_KEY_PARTS && 0 <= i <= |Lower(key)| :: part <= Lower(key)[i..]
    ensures forall other | Lower(other) == Lower(key) :: Sensitive(other) <==> Sensitive(key)
  {
    hide Contains;
    forall part ensures Contains(Lower(key), part) <==> exists i | 0 <= i <= |Lower(key)| :: part <= Lower(key)[i..] {
      ContainsIs(Lower(key), part);
    }
  }
}
