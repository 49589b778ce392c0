/**
  Redaction of audit details.  `Sanitize` replaces every value under a
  secret-named key, at any depth, and is applied again on each path that an
  audit event takes: recording, forwarding to the SIEM, and listing.
 */
module Audit {
  import opened Wrappers

  datatype Json =
    | Null
    | Bool(b: bool)
    | Number(n: int)
    | Str(s: string)
    | Arr(items: seq<Json>)
    | Obj(fields: seq<Field>)

  datatype Field = Field(key: string, value: Json)

  const REDACTED := Str("[REDACTED]")

  // ---------- Secret keys ----------

  function Normalize(key: string): string {
    if key == "" then ""
    else (if key[0] == '_' || key[0] == '-' then "" else Lower(key[..1])) + Normalize(key[1..])
  }

  predicate Contains(s: string, marker: string) {
    exists i :: 0 <= i <= |s| && marker <= s[i..]
  }

  predicate IsSecretKey(key: string) {
    var k := Normalize(key);
    Contains(k, "apikey") || Contains(k, "secret") || Contains(k, "token") || Contains(k, "password")
  }

  lemma {:induction false} NormalizeConcat(a: string, b: string)
    ensures Normalize(a + b) == Normalize(a) + Normalize(b)
  {
    if a == "" {
      assert a + b == b;
    } else {
      assert (a + b)[0] == a[0] && (a + b)[..1] == a[..1] && (a + b)[1..] == a[1..] + b;
      NormalizeConcat(a[1..], b);
      var first := if a[0] == '_' || a[0] == '-' then "" else Lower(a[..1]);
      assert first + (Normalize(a[1..]) + Normalize(b)) == first + Normalize(a[1..]) + Normalize(b);
    }
  }

  ghost predicate IsSeparator(c: char) {
    c == '_' || c == '-'
  }

  /** A separator anywhere in a key makes no difference. */
  lemma {:induction false} SeparatorsDoNotMatter(a: string, c: char, b: string)
    requires IsSeparator(c)
    ensures IsSecretKey(a + [c] + b) <==> IsSecretKey(a + b)
  {
    NormalizeConcat(a + [c], b);
    NormalizeConcat(a, [c]);
    NormalizeConcat(a, b);
    assert Normalize([c]) == "" by {
      assert [c][1..] == "";
    }
    assert Normalize(a) + "" == Normalize(a);
    assert Normalize(a + [c] + b) == Normalize(a + b);
  }

  /** Nor does the case of its letters. */
  lemma {:induction false} CaseDoesNotMatter(a: string, b: string)
    requires SameIgnoringCase(a, b)
    ensures Normalize(a) == Normalize(b)
    ensures IsSecretKey(a) <==> IsSecretKey(b)
  {
    if a != "" {
      assert SameLetter(a[0], b[0]);
      LowerIgnoresCase(a[..1], b[..1]);
      CaseDoesNotMatter(a[1..], b[1..]);
    }
  }

  ghost predicate OccursAt(key: string, word: string, i: int) {
    0 <= i <= |key| - |word| && key[i..i + |word|] == word
  }

  ghost predicate Names(key: string, word: string) {
    exists i :: OccursAt(key, word, i)
  }

  lemma {:induction false} PlainIsNormal(key: string)
    requires IsLowerCase(key) && forall i :: 0 <= i < |key| ==> !IsSeparator(key[i])
    ensures Normalize(key) == key
  {
    if key != "" {
      PlainIsNormal(key[1..]);
      assert Lower(key[..1]) == key[..1] && key == key[..1] + key[1..];
    }
  }

  lemma {:induction false} ContainsMeaning(s: string, word: string)
    ensures Contains(s, word) <==> Names(s, word)
  {
    if Contains(s, word) {
      var i :| 0 <= i <= |s| && word <= s[i..];
      assert s[i..][..|word|] == s[i..i + |word|];
      assert OccursAt(s, word, i);
    }
    if Names(s, word) {
      var i :| OccursAt(s, word, i);
      assert s[i..][..|word|] == s[i..i + |word|];
      assert word <= s[i..];
    }
  }

  /** A lower-case key without separators is secret exactly if one of four words occurs in it. */
  lemma {:induction false} PlainSecretMeaning(key: string)
    requires IsLowerCase(key) && forall i :: 0 <= i < |key| ==> !IsSeparator(key[i])
    ensures IsSecretKey(key) <==>
      Names(key, "apikey") || Names(key, "secret") || Names(key, "token") || Names(key, "password")
  {
    PlainIsNormal(key);
    ContainsMeaning(key, "apikey");
    ContainsMeaning(key, "secret");
    ContainsMeaning(key, "token");
    ContainsMeaning(key, "password");
  }

  // ---------- Sanitizing ----------

  function Sanitize(v: Json): Json
    decreases v, 1
  {
    match v
    case Obj(fields) => Obj(SanitizeFields(fields))
    case Arr(items) => Arr(SanitizeItems(items))
    case _ => v
  }

  function SanitizeItems(items: seq<Json>): (r: seq<Json>)
    ensures |r| == |items|
    decreases items, 0
  {
    if items == [] then [] else [Sanitize(items[0])] + SanitizeItems(items[1..])
  }

  function SanitizeFields(fields: seq<Field>): (r: seq<Field>)
    ensures |r| == |fields|
    decreases fields, 0
  {
    if fields == [] then []
    else
      var f := fields[0];
      [Field(f.key, if IsSecretKey(f.key) then REDACTED else Sanitize(f.value))] + SanitizeFields(fields[1..])
  }

  // ---------- Meaning ----------

  /** Equal except for values beneath secret-named keys: same shape, same keys, same open leaves. */
  ghost predicate AgreeOpenly(v: Json, w: Json)
    decreases v, 1
  {
    match v
    case Obj(fields) => w.Obj? && FieldsAgree(fields, w.fields)
    case Arr(items) => w.Arr? && ItemsAgree(items, w.items)
    case _ => v == w
  }

  ghost predicate ItemsAgree(a: seq<Json>, b: seq<Json>)
    decreases a, 0
  {
    |a| == |b| && (a != [] ==> AgreeOpenly(a[0], b[0]) && ItemsAgree(a[1..], b[1..]))
  }

  ghost predicate FieldsAgree(a: seq<Field>, b: seq<Field>)
    decreases a, 0
  {
    && |a| == |b|
    && (a != [] ==>
          && a[0].key == b[0].key
          && (IsSecretKey(a[0].key) || AgreeOpenly(a[0].value, b[0].value))
          && FieldsAgree(a[1..], b[1..]))
  }

  /** Nothing but the marker is left beneath a secret-named key. */
  ghost predicate Clean(v: Json)
    decreases v, 1
  {
    match v
    case Obj(fields) => FieldsClean(fields)
    case Arr(items) => ItemsClean(items)
    case _ => true
  }

  ghost predicate ItemsClean(s: seq<Json>)
    decreases s, 0
  {
    s != [] ==> Clean(s[0]) && ItemsClean(s[1..])
  }

  ghost predicate FieldsClean(s: seq<Field>)
    decreases s, 0
  {
    s != [] ==>
      (if IsSecretKey(s[0].key) then s[0].value == Str("[REDACTED]") else Clean(s[0].value)) && FieldsClean(s[1..])
  }

  /** The result keeps everything open and leaves nothing secret. */
  lemma {:induction false} SanitizeIsRedaction(v: Json)
    ensures AgreeOpenly(v, Sanitize(v)) && Clean(Sanitize(v))
    decreases v, 1
  {
    match v
    case Obj(fields) => FieldsRedacted(fields);
    case Arr(items) => ItemsRedacted(items);
    case _ =>
  }

  lemma {:induction false} ItemsRedacted(items: seq<Json>)
    ensures ItemsAgree(items, SanitizeItems(items)) && ItemsClean(SanitizeItems(items))
    decreases items, 0
  {
    if items != [] {
      SanitizeIsRedaction(items[0]);
      ItemsRedacted(items[1..]);
      assert SanitizeItems(items)[1..] == SanitizeItems(items[1..]);
    }
  }

  lemma {:induction false} FieldsRedacted(fields: seq<Field>)
    ensures FieldsAgree(fields, SanitizeFields(fields)) && FieldsClean(SanitizeFields(fields))
    decreases fields, 0
  {
    if fields != [] {
      SanitizeIsRedaction(fields[0].value);
      FieldsRedacted(fields[1..]);
      assert SanitizeFields(fields)[1..] == SanitizeFields(fields[1..]);
    }
  }

  /**
    Non-interference, both ways: two values sanitize to the same result exactly
    if they differ at most beneath secret-named keys.
   */
  lemma {:induction false} SameResultIffAgreeOpenly(v: Json, w: Json)
    ensures Sanitize(v) == Sanitize(w) <==> AgreeOpenly(v, w)
    decreases v, 1
  {
    match v
    case Obj(fields) =>
      if w.Obj? {
        SameFieldsIffAgree(fields, w.fields);
      }
    case Arr(items) =>
      if w.Arr? {
        SameItemsIffAgree(items, w.items);
      }
    case _ =>
  }

  lemma {:induction false} SameItemsIffAgree(a: seq<Json>, b: seq<Json>)
    ensures SanitizeItems(a) == SanitizeItems(b) <==> ItemsAgree(a, b)
    decreases a, 0
  {
    if a != [] && |a| == |b| {
      SameResultIffAgreeOpenly(a[0], b[0]);
      SameItemsIffAgree(a[1..], b[1..]);
      SameCons(Sanitize(a[0]), SanitizeItems(a[1..]), Sanitize(b[0]), SanitizeItems(b[1..]));
    }
  }

  lemma {:induction false} SameFieldsIffAgree(a: seq<Field>, b: seq<Field>)
    ensures SanitizeFields(a) == SanitizeFields(b) <==> FieldsAgree(a, b)
    decreases a, 0
  {
    if a != [] && |a| == |b| {
      SameResultIffAgreeOpenly(a[0].value, b[0].value);
      SameFieldsIffAgree(a[1..], b[1..]);
      SameCons(SanitizeFields(a)[0], SanitizeFields(a[1..]), SanitizeFields(b)[0], SanitizeFields(b[1..]));
    }
  }

  lemma {:induction false} SameCons<T>(x: T, s: seq<T>, y: T, t: seq<T>)
    ensures [x] + s == [y] + t <==> x == y && s == t
  {
    if [x] + s == [y] + t {
      assert ([x] + s)[0] == ([y] + t)[0];
      assert s == ([x] + s)[1..] && t == ([y] + t)[1..];
    }
  }

  /** Sanitizing again changes nothing. */
  lemma {:induction false} SanitizeIdempotent(v: Json)
    ensures Sanitize(Sanitize(v)) == Sanitize(v)
  {
    SanitizeIsRedaction(v);
    SameResultIffAgreeOpenly(v, Sanitize(v));
  }

  // ---------- The paths of an audit event ----------

  datatype AuditEvent = AuditEvent(id: nat, action: string, outcome: string, userId: string, details: Json,
                                   createdAt: int)

  datatype SiemPayload = SiemPayload(action: string, outcome: string, actorUserId: string, details: Json, at: int)

  datatype ListedEvent = ListedEvent(id: nat, action: string, outcome: string, userId: string, details: Json,
                                     createdAt: int)

  /** Missing details are an empty object. */
  function OrEmpty(details: Option<Json>): Json {
    if details.Some? then details.value else Obj([])
  }

  function ToSiem(e: AuditEvent): SiemPayload {
    SiemPayload(e.action, e.outcome, e.userId, Sanitize(e.details), e.createdAt)
  }

  function ToListed(e: AuditEvent): ListedEvent {
    ListedEvent(e.id, e.action, e.outcome, e.userId, Sanitize(e.details), e.createdAt)
  }

  class InMemoryAuthAuditStore {
    var events: seq<AuditEvent>

    constructor ()
      ensures events == []
    {
      events := [];
    }

    method Record(action: string, outcome: string, userId: string, details: Option<Json>, now: int)
      modifies this
      ensures events == old(events)
        + [AuditEvent(|old(events)| + 1, action, outcome, userId, Sanitize(OrEmpty(details)), now)]
      ensures var stored := events[|events| - 1].details;
        Clean(stored) && AgreeOpenly(OrEmpty(details), stored) && Sanitize(stored) == stored
    {
      SanitizeIsRedaction(OrEmpty(details));
      SanitizeIdempotent(OrEmpty(details));
      events := events + [AuditEvent(|events| + 1, action, outcome, userId, Sanitize(OrEmpty(details)), now)];
    }
  }

  class ForwardingAuthAuditStore {
    const primary: InMemoryAuthAuditStore
    /** What the forwarder sent to the SIEM. */
    var forwarded: seq<SiemPayload>

    constructor (primary: InMemoryAuthAuditStore)
      ensures this.primary == primary && forwarded == []
    {
      this.primary, forwarded := primary, [];
    }

    /**
      Records and forwards an event; a failing forwarder is ignored.  Details are
      sanitized here, again by the primary store, and again on the way to the
      SIEM; the outcome on both paths, and in a later listing, is one sanitizing.
     */
    method Record(action: string, outcome: string, userId: string, details: Option<Json>, now: int, reachable: bool)
      modifies this, primary
      ensures |primary.events| == |old(primary.events)| + 1 && old(primary.events) <= primary.events
      ensures var e := primary.events[|old(primary.events)|];
        && e.action == action && e.outcome == outcome && e.userId == userId && e.createdAt == now
        && e.details == Sanitize(OrEmpty(details)) && ToListed(e).details == Sanitize(OrEmpty(details))
      ensures forwarded == if reachable
        then old(forwarded) + [SiemPayload(action, outcome, userId, Sanitize(OrEmpty(details)), now)]
        else old(forwarded)
    {
      var sanitized := Sanitize(OrEmpty(details));
      SanitizeIdempotent(OrEmpty(details));
      primary.Record(action, outcome, userId, Some(sanitized), now);
      if reachable {
        forwarded := forwarded + [ToSiem(AuditEvent(0, action, outcome, userId, sanitized, now))];
      }
    }
  }

  /** Whatever was recorded, the stored, forwarded and listed details do not depend on secret values. */
  lemma {:induction false} PathsHideSecrets(e: AuditEvent, f: AuditEvent, details: Json, other: Json)
    requires AgreeOpenly(details, other)
    requires e.details == Sanitize(details) && f == e.(details := Sanitize(other))
    ensures e == f && ToSiem(e) == ToSiem(f) && ToListed(e) == ToListed(f)
    ensures Clean(ToSiem(e).details) && Clean(ToListed(e).details)
  {
    SameResultIffAgreeOpenly(details, other);
    SanitizeIsRedaction(Sanitize(details));
  }
}
