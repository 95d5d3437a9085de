/** The redacting log handler: a check-only pass decides whether the full redaction pass is needed. */
module Redaction {

  /** Other stands for every kind of value that is neither a string nor a group. */
  datatype Value = Str(s: string) | Group(attrs: seq<Attr>) | Other(tag: int)

  datatype Attr = Attr(key: string, value: Value)

  datatype Record = Record(message: string, attrs: seq<Attr>)

  /** Case folding, and what replacing all matches of the two regular expressions yields: neither is
      looked into. */
  datatype Engine = Engine(
    lower: string -> string,
    emailsReplaced: string -> string,
    cardsReplaced: string -> string)

  predicate Contains(s: string, sub: string)
    decreases |s|
  {
    |sub| <= |s| && (s[..|sub|] == sub || (s != [] && Contains(s[1..], sub)))
  }

  const SENSITIVE: seq<string> := [
    "token", "password", "secret", "api_key", "apikey",
    "access_key", "authorization", "cookie", "bearer"]

  predicate SensitiveKey(key: string) {
    exists i :: 0 <= i < |SENSITIVE| && Contains(key, SENSITIVE[i])
  }

  // ----- The two regular expressions -----

  predicate Digit(c: char) { '0' <= c <= '9' }

  predicate Letter(c: char) { 'a' <= c <= 'z' || 'A' <= c <= 'Z' }

  predicate LocalChar(c: char) { Letter(c) || Digit(c) || c in "._%+-" }

  predicate DomainChar(c: char) { Letter(c) || Digit(c) || c in ".-" }

  /** The email expression matches s[i..]: one or more local characters up to p, an at sign, one or more
      domain characters up to d, a dot and two letters (or more, which a match may leave out). */
  predicate EmailAt(s: string, i: nat, p: nat, d: nat) {
    && i < p && p + 1 < d && d + 2 < |s|
    && (forall k :: i <= k < p ==> LocalChar(s[k]))
    && s[p] == '@'
    && (forall k :: p < k < d ==> DomainChar(s[k]))
    && s[d] == '.' && Letter(s[d + 1]) && Letter(s[d + 2])
  }

  predicate EmailMatches(s: string) {
    exists i, p, d :: 0 <= i < p < d < |s| && EmailAt(s, i, p, d)
  }

  predicate WordChar(c: char) { Letter(c) || Digit(c) || c == '_' }

  /** Between a word character and a character, or end of the string, that is none. */
  predicate Boundary(s: string, i: nat)
    requires i <= |s|
  {
    (i > 0 && WordChar(s[i - 1])) != (i < |s| && WordChar(s[i]))
  }

  /** n digits, each followed by any number of spaces and dashes. */
  predicate DigitGroups(s: string, n: nat) {
    if n == 0 then s == []
    else s != [] && Digit(s[0]) && exists m :: 1 <= m <= |s| && Filler(s[1..m]) && DigitGroups(s[m..], n - 1)
  }

  predicate Filler(s: string) {
    forall k :: 0 <= k < |s| ==> s[k] == ' ' || s[k] == '-'
  }

  /** The card expression matches s[i..j] with n digits. */
  predicate CardAt(s: string, i: nat, j: nat, n: nat) {
    i <= j <= |s| && Boundary(s, i) && Boundary(s, j) && DigitGroups(s[i..j], n)
  }

  predicate CardMatches(s: string) {
    exists i, j, n :: 0 <= i <= j <= |s| && 13 <= n <= 16 && CardAt(s, i, j, n)
  }

  // ----- Redacting a string -----

  predicate HasDigit(s: string) {
    exists i :: 0 <= i < |s| && Digit(s[i])
  }

  predicate ShouldRedact(s: string) {
    '@' in s || (|s| >= 13 && HasDigit(s))
  }

  /** With the tests that save the regular expressions from being tried. */
  function RedactString(e: Engine, s: string): string {
    if !ShouldRedact(s) then s
    else
      var t := if '@' in s && EmailMatches(s) then e.emailsReplaced(s) else s;
      if |t| >= 13 && HasDigit(t) && CardMatches(t) then e.cardsReplaced(t) else t
  }

  /** Replacing all matches leaves a string without matches alone. */
  function WithoutEmails(e: Engine, s: string): string {
    if EmailMatches(s) then e.emailsReplaced(s) else s
  }

  function WithoutCards(e: Engine, s: string): string {
    if CardMatches(s) then e.cardsReplaced(s) else s
  }

  lemma {:induction false} DigitGroupsAreLong(s: string, n: nat)
    requires DigitGroups(s, n)
    ensures |s| >= n && (n > 0 ==> s != [] && Digit(s[0]))
  {
    if n == 0 {
    } else {
      var m :| 1 <= m <= |s| && Filler(s[1..m]) && DigitGroups(s[m..], n - 1);
      DigitGroupsAreLong(s[m..], n - 1);
    }
  }

  lemma CardsAreLong(s: string)
    requires CardMatches(s)
    ensures |s| >= 13 && HasDigit(s)
  {
    var i, j, n :| 0 <= i <= j <= |s| && 13 <= n <= 16 && CardAt(s, i, j, n);
    DigitGroupsAreLong(s[i..j], n);
    assert Digit(s[i]);
  }

  /** The quick tests lose nothing: the result is that of replacing all emails and then all cards, with
      both expressions always tried. */
  lemma QuickTestsLoseNothing(e: Engine, s: string)
    ensures RedactString(e, s) == WithoutCards(e, WithoutEmails(e, s))
  {
    assert EmailMatches(s) ==> '@' in s;
    var t := WithoutEmails(e, s);
    if CardMatches(t) { CardsAreLong(t); }
    if CardMatches(s) { CardsAreLong(s); }
  }

  const MASK: string := "[REDACTED]"

  // ----- slog's constructors -----

  predicate EmptyGroup(v: Value) {
    v.Group? && v.attrs == []
  }

  /** Both GroupValue and AddAttrs leave out attributes that are empty groups. */
  function DropEmpty(attrs: seq<Attr>): seq<Attr> {
    if attrs == [] then []
    else (if EmptyGroup(attrs[0].value) then [] else [attrs[0]]) + DropEmpty(attrs[1..])
  }

  function GroupValue(attrs: seq<Attr>): Value {
    Group(DropEmpty(attrs))
  }

  /** What those constructors guarantee: no empty group inside a group or a record. */
  ghost predicate Tidy(v: Value) {
    v.Group? ==> TidyAll(v.attrs)
  }

  ghost predicate TidyAll(attrs: seq<Attr>) {
    forall a :: a in attrs ==> !EmptyGroup(a.value) && Tidy(a.value)
  }

  // ----- The handler -----

  /** The redacted attribute and whether it changed; in check-only mode just whether it might. */
  function RedactAttr(e: Engine, a: Attr, checkOnly: bool): (Attr, bool)
    decreases a, 1
  {
    if a.value.Group? then RedactGroup(e, a, checkOnly) else RedactScalar(e, a, checkOnly)
  }

  const NO_ATTR: Attr := Attr("", Other(0))

  function RedactGroup(e: Engine, a: Attr, checkOnly: bool): (Attr, bool)
    requires a.value.Group?
    decreases a, 0
  {
    if checkOnly then
      if AnyMayChange(e, a.value.attrs) then (NO_ATTR, true) else (a, false)
    else
      var (group, changed) := RedactEach(e, a.value.attrs);
      if changed then (Attr(a.key, GroupValue(group)), true) else (a, false)
  }

  /** The check-only loop over a group, which stops at the first attribute that may change. */
  predicate AnyMayChange(e: Engine, attrs: seq<Attr>)
    decreases attrs, 0
  {
    attrs != [] && (RedactAttr(e, attrs[0], true).1 || AnyMayChange(e, attrs[1..]))
  }

  /** The full loop over a group. */
  function RedactEach(e: Engine, attrs: seq<Attr>): (seq<Attr>, bool)
    decreases attrs, 0
  {
    if attrs == [] then ([], false)
    else
      var (a, changed) := RedactAttr(e, attrs[0], false);
      var (rest, more) := RedactEach(e, attrs[1..]);
      ([a] + rest, changed || more)
  }

  function RedactScalar(e: Engine, a: Attr, checkOnly: bool): (Attr, bool) {
    if !a.value.Str? then (a, false)
    else if SensitiveKey(e.lower(a.key)) then
      if checkOnly then (NO_ATTR, true) else (Attr(a.key, Str(MASK)), true)
    else if checkOnly then
      if ShouldRedact(a.value.s) then (NO_ATTR, true) else (a, false)
    else
      var s := RedactString(e, a.value.s);
      if s != a.value.s then (Attr(a.key, Str(s)), true) else (a, false)
  }

  /** The first pass stops at the first attribute that may change; if it finds none, none would. */
  method FirstPass(e: Engine, attrs: seq<Attr>) returns (anyChanged: bool)
    ensures anyChanged <==> exists i :: 0 <= i < |attrs| && WorthALook(e, attrs[i])
    ensures !anyChanged ==> RedactedAll(e, attrs) == attrs
  {
    for i := 0 to |attrs|
      invariant RedactedAll(e, attrs[..i]) == attrs[..i]
      invariant forall j :: 0 <= j < i ==> !WorthALook(e, attrs[j])
    {
      var (_, changed) := RedactAttr(e, attrs[i], true);
      CheckReportsIff(e, attrs[i]);
      if changed {
        return true;
      }
      CheckFindsChanges(e, attrs[i]);
      RedactedSnoc(e, attrs, i);
    }
    assert attrs[..|attrs|] == attrs;
    return false;
  }

  /** The second pass redacts every attribute. */
  method SecondPass(e: Engine, attrs: seq<Attr>) returns (newAttrs: seq<Attr>)
    requires TidyAll(attrs)
    ensures newAttrs == RedactedAll(e, attrs)
  {
    newAttrs := [];
    for i := 0 to |attrs|
      invariant newAttrs == RedactedAll(e, attrs[..i])
    {
      var (attr, _) := RedactAttr(e, attrs[i], false);
      FullPass(e, attrs[i]);
      RedactedSnoc(e, attrs, i);
      newAttrs := newAttrs + [attr];
    }
    assert attrs[..|attrs|] == attrs;
  }

  /** Forwards the record as it is unless the message changes or the check pass finds an attribute that
      may change; what it forwards is the reference redaction of the record in either case. */
  method Handle(e: Engine, r: Record) returns (forwarded: Record)
    requires TidyAll(r.attrs)
    ensures forwarded == Record(RedactString(e, r.message), RedactedAll(e, r.attrs))
  {
    var newMsg := r.message;
    var anyChanged := false;
    if ShouldRedact(r.message) {
      newMsg := RedactString(e, r.message);
      anyChanged := newMsg != r.message;
    }
    if !anyChanged {
      anyChanged := FirstPass(e, r.attrs);
    }
    if !anyChanged {
      return r;
    }
    var newAttrs := SecondPass(e, r.attrs);
    RedactedIsTidy(e, r.attrs);
    NothingToDrop(newAttrs);
    return Record(newMsg, DropEmpty(newAttrs));
  }

  // ----- Reference: redact everything, with no flags and no shortcuts -----

  function Redacted(e: Engine, a: Attr): Attr
    decreases a, 0
  {
    match a.value
    case Str(s) => Attr(a.key, Str(if SensitiveKey(e.lower(a.key)) then MASK else RedactString(e, s)))
    case Group(attrs) => Attr(a.key, Group(RedactedAll(e, attrs)))
    case Other(_) => a
  }

  function RedactedAll(e: Engine, attrs: seq<Attr>): (r: seq<Attr>)
    ensures |r| == |attrs|
    decreases attrs, 0
  {
    if attrs == [] then [] else [Redacted(e, attrs[0])] + RedactedAll(e, attrs[1..])
  }

  lemma {:induction false} RedactedAt(e: Engine, attrs: seq<Attr>, i: nat)
    requires i < |attrs|
    ensures RedactedAll(e, attrs)[i] == Redacted(e, attrs[i])
  {
    if i == 0 {
    } else {
      RedactedAt(e, attrs[1..], i - 1);
    }
  }

  lemma RedactedSnoc(e: Engine, attrs: seq<Attr>, n: nat)
    requires n < |attrs|
    ensures RedactedAll(e, attrs[..n + 1]) == RedactedAll(e, attrs[..n]) + [Redacted(e, attrs[n])]
  {
    var l, r := RedactedAll(e, attrs[..n + 1]), RedactedAll(e, attrs[..n]) + [Redacted(e, attrs[n])];
    forall i | 0 <= i <= n ensures l[i] == r[i] {
      RedactedAt(e, attrs[..n + 1], i);
      if i < n { RedactedAt(e, attrs[..n], i); }
    }
  }

  lemma {:induction false} NothingToDrop(attrs: seq<Attr>)
    requires forall a :: a in attrs ==> !EmptyGroup(a.value)
    ensures DropEmpty(attrs) == attrs
  {
    if attrs == [] {
    } else {
      NothingToDrop(attrs[1..]);
    }
  }

  /** Redaction never empties a group. */
  lemma RedactedIsTidy(e: Engine, attrs: seq<Attr>)
    requires TidyAll(attrs)
    ensures forall r :: r in RedactedAll(e, attrs) ==> !EmptyGroup(r.value)
  {
    var all := RedactedAll(e, attrs);
    forall r | r in all ensures !EmptyGroup(r.value) {
      var i :| 0 <= i < |all| && all[i] == r;
      RedactedAt(e, attrs, i);
      assert attrs[i] in attrs;
    }
  }

  /** The full pass computes the reference; an attribute it reports unchanged is left as it was. */
  lemma {:induction false} FullPass(e: Engine, a: Attr)
    requires Tidy(a.value)
    ensures RedactAttr(e, a, false).0 == Redacted(e, a)
    ensures !RedactAttr(e, a, false).1 ==> Redacted(e, a) == a
    decreases a, 0
  {
    if a.value.Group? {
      FullPassEach(e, a.value.attrs);
      RedactedIsTidy(e, a.value.attrs);
      NothingToDrop(RedactedAll(e, a.value.attrs));
    }
  }

  lemma {:induction false} FullPassEach(e: Engine, attrs: seq<Attr>)
    requires TidyAll(attrs)
    ensures RedactEach(e, attrs).0 == RedactedAll(e, attrs)
    ensures !RedactEach(e, attrs).1 ==> RedactedAll(e, attrs) == attrs
    decreases attrs, 0
  {
    if attrs == [] {
    } else {
      assert attrs[0] in attrs;
      FullPass(e, attrs[0]);
      FullPassEach(e, attrs[1..]);
    }
  }

  /** Whatever the full pass would change, at any depth, the check pass reports. */
  lemma {:induction false} CheckFindsChanges(e: Engine, a: Attr)
    ensures Redacted(e, a) != a ==> RedactAttr(e, a, true).1
    decreases a, 0
  {
    if a.value.Group? {
      CheckFindsChangesIn(e, a.value.attrs);
    }
  }

  lemma {:induction false} CheckFindsChangesIn(e: Engine, attrs: seq<Attr>)
    ensures RedactedAll(e, attrs) != attrs ==> AnyMayChange(e, attrs)
    decreases attrs, 0
  {
    if attrs == [] {
    } else {
      CheckFindsChanges(e, attrs[0]);
      CheckFindsChangesIn(e, attrs[1..]);
    }
  }

  // ----- Exactly what makes the two passes report a change -----

  /** At some depth a string stands under a sensitive key, or has an at sign, or a digit among at least
      thirteen characters. */
  predicate WorthALook(e: Engine, a: Attr) {
    match a.value
    case Str(s) => SensitiveKey(e.lower(a.key)) || '@' in s || (|s| >= 13 && exists i :: 0 <= i < |s| && Digit(s[i]))
    case Group(attrs) => exists i :: 0 <= i < |attrs| && WorthALook(e, attrs[i])
    case Other(_) => false
  }

  predicate HasSensitive(e: Engine, a: Attr) {
    match a.value
    case Str(_) => SensitiveKey(e.lower(a.key))
    case Group(attrs) => exists i :: 0 <= i < |attrs| && HasSensitive(e, attrs[i])
    case Other(_) => false
  }

  /** The check pass reports exactly the attributes worth a look, and hands back those that are not. */
  lemma {:induction false} CheckReportsIff(e: Engine, a: Attr)
    ensures RedactAttr(e, a, true).1 <==> WorthALook(e, a)
    ensures RedactAttr(e, a, true).0 == if WorthALook(e, a) then NO_ATTR else a
    decreases a, 0
  {
    if a.value.Group? { CheckReportsIn(e, a.value.attrs); }
  }

  lemma {:induction false} CheckReportsIn(e: Engine, attrs: seq<Attr>)
    ensures AnyMayChange(e, attrs) <==> exists i :: 0 <= i < |attrs| && WorthALook(e, attrs[i])
    decreases attrs, 0
  {
    if attrs == [] {
    } else {
      CheckReportsIff(e, attrs[0]);
      CheckReportsIn(e, attrs[1..]);
      assert forall i :: 0 < i < |attrs| ==> attrs[i] == attrs[1..][i - 1];
      if i :| 0 <= i < |attrs[1..]| && WorthALook(e, attrs[1..][i]) {
        assert WorthALook(e, attrs[i + 1]);
      }
    }
  }

  /** The full pass reports exactly the attributes that change or had something to mask. */
  lemma {:induction false} FullReportsIff(e: Engine, a: Attr)
    ensures RedactAttr(e, a, false).1 <==> Redacted(e, a) != a || HasSensitive(e, a)
    decreases a, 0
  {
    if a.value.Group? { FullReportsIn(e, a.value.attrs); }
  }

  lemma {:induction false} FullReportsIn(e: Engine, attrs: seq<Attr>)
    ensures RedactEach(e, attrs).1
            <==> RedactedAll(e, attrs) != attrs || exists i :: 0 <= i < |attrs| && HasSensitive(e, attrs[i])
    decreases attrs, 0
  {
    if attrs == [] {
    } else {
      FullReportsIff(e, attrs[0]);
      FullReportsIn(e, attrs[1..]);
      assert attrs == [attrs[0]] + attrs[1..];
      assert RedactedAll(e, attrs)[1..] == RedactedAll(e, attrs[1..]);
      assert forall i :: 0 < i < |attrs| ==> attrs[i] == attrs[1..][i - 1];
      if i :| 0 <= i < |attrs[1..]| && HasSensitive(e, attrs[1..][i]) {
        assert HasSensitive(e, attrs[i + 1]);
      }
    }
  }

  // ----- What the forwarded record looks like -----

  ghost predicate Has(s: string, word: string) {
    exists pre: string, post: string :: s == pre + word + post
  }

  /** One of the nine words occurs in the key. */
  ghost predicate NamesSecret(key: string) {
    || Has(key, "token") || Has(key, "password") || Has(key, "secret")
    || Has(key, "api_key") || Has(key, "apikey") || Has(key, "access_key")
    || Has(key, "authorization") || Has(key, "cookie") || Has(key, "bearer")
  }

  lemma {:induction false} ContainedIsThere(s: string, sub: string) returns (pre: string, post: string)
    requires Contains(s, sub)
    ensures s == pre + sub + post
    decreases |s|
  {
    if s[..|sub|] == sub {
      pre, post := [], s[|sub|..];
    } else {
      var rest: string;
      rest, post := ContainedIsThere(s[1..], sub);
      pre := [s[0]] + rest;
      PutInFront(s, rest, sub, post);
    }
  }

  lemma PutInFront(s: string, rest: string, sub: string, post: string)
    requires s != [] && s[1..] == rest + sub + post
    ensures s == ([s[0]] + rest) + sub + post
  {
    assert s == [s[0]] + s[1..];
  }

  lemma {:induction false} ThereIsContained(pre: string, sub: string, post: string)
    ensures Contains(pre + sub + post, sub)
  {
    var s := pre + sub + post;
    if pre == [] {
      assert s[..|sub|] == sub;
    } else {
      assert s[1..] == pre[1..] + sub + post;
      ThereIsContained(pre[1..], sub, post);
    }
  }

  lemma ContainsIff(s: string, sub: string)
    ensures Contains(s, sub) <==> Has(s, sub)
  {
    if Contains(s, sub) { var pre, post := ContainedIsThere(s, sub); }
    if Has(s, sub) {
      var pre: string, post: string :| s == pre + sub + post;
      ThereIsContained(pre, sub, post);
    }
  }

  lemma SensitiveIff(key: string)
    ensures SensitiveKey(key) <==> NamesSecret(key)
  {
    forall i | 0 <= i < |SENSITIVE| ensures Contains(key, SENSITIVE[i]) <==> Has(key, SENSITIVE[i]) {
      ContainsIff(key, SENSITIVE[i]);
    }
    assert SENSITIVE[0] == "token" && SENSITIVE[1] == "password" && SENSITIVE[2] == "secret";
    assert SENSITIVE[3] == "api_key" && SENSITIVE[4] == "apikey" && SENSITIVE[5] == "access_key";
    assert SENSITIVE[6] == "authorization" && SENSITIVE[7] == "cookie" && SENSITIVE[8] == "bearer";
  }

  /** A string is masked exactly if its folded key contains one of the nine words; any other string has its
      emails and then its cards replaced, and nothing else. */
  lemma MaskedIff(e: Engine, key: string, s: string)
    ensures Redacted(e, Attr(key, Str(s)))
         == Attr(key, Str(if NamesSecret(e.lower(key)) then "[REDACTED]" else WithoutCards(e, WithoutEmails(e, s))))
  {
    SensitiveIff(e.lower(key));
    QuickTestsLoseNothing(e, s);
  }

  /** A string stands under a sensitive key, at some depth, and is not the mask. */
  ghost predicate ShowsSecret(e: Engine, a: Attr) {
    match a.value
    case Str(s) => SensitiveKey(e.lower(a.key)) && s != MASK
    case Group(attrs) => exists x :: x in attrs && ShowsSecret(e, x)
    case Other(_) => false
  }

  /** No redacted attribute shows a secret at any depth. */
  lemma {:induction false} NoSecretLeft(e: Engine, a: Attr)
    ensures !ShowsSecret(e, Redacted(e, a))
    decreases a
  {
    if a.value.Group? {
      var attrs, all := a.value.attrs, RedactedAll(e, a.value.attrs);
      forall x | x in all ensures !ShowsSecret(e, x) {
        var i :| 0 <= i < |all| && all[i] == x;
        RedactedAt(e, attrs, i);
        NoSecretLeft(e, attrs[i]);
      }
    }
  }

  /** Nor does any attribute that is forwarded. */
  lemma NoSecretForwarded(e: Engine, attrs: seq<Attr>, a: Attr)
    requires a in RedactedAll(e, attrs)
    ensures !ShowsSecret(e, a)
  {
    var i :| 0 <= i < |attrs| && RedactedAll(e, attrs)[i] == a;
    RedactedAt(e, attrs, i);
    NoSecretLeft(e, attrs[i]);
  }

  /** The two attributes differ at most in strings that stand under sensitive keys. */
  ghost predicate SameButSecrets(e: Engine, a: Attr, b: Attr)
    decreases a, 0
  {
    && a.key == b.key
    && match a.value
       case Str(s) => b.value.Str? && (s == b.value.s || SensitiveKey(e.lower(a.key)))
       case Group(attrs) => b.value.Group? && SameButSecretsIn(e, attrs, b.value.attrs)
       case Other(_) => b.value == a.value
  }

  ghost predicate SameButSecretsIn(e: Engine, a: seq<Attr>, b: seq<Attr>)
    decreases a, 0
  {
    |a| == |b| && (a == [] || (SameButSecrets(e, a[0], b[0]) && SameButSecretsIn(e, a[1..], b[1..])))
  }

  /** What is forwarded does not depend on the secrets: attributes that differ in nothing else redact to
      the same. */
  lemma {:induction false} SecretsDoNotMatter(e: Engine, a: Attr, b: Attr)
    requires SameButSecrets(e, a, b)
    ensures Redacted(e, a) == Redacted(e, b)
    decreases a, 0
  {
    if a.value.Group? { SecretsDoNotMatterIn(e, a.value.attrs, b.value.attrs); }
  }

  lemma {:induction false} SecretsDoNotMatterIn(e: Engine, a: seq<Attr>, b: seq<Attr>)
    requires SameButSecretsIn(e, a, b)
    ensures RedactedAll(e, a) == RedactedAll(e, b)
    decreases a, 0
  {
    if a == [] {
    } else {
      SecretsDoNotMatter(e, a[0], b[0]);
      SecretsDoNotMatterIn(e, a[1..], b[1..]);
    }
  }

  /** Values built with slog's group constructor from tidy parts are tidy. */
  lemma {:induction false} GroupValueIsTidy(attrs: seq<Attr>)
    requires forall a :: a in attrs ==> Tidy(a.value)
    ensures Tidy(GroupValue(attrs))
    ensures TidyAll(DropEmpty(attrs))
  {
    if attrs == [] {
    } else {
      GroupValueIsTidy(attrs[1..]);
    }
  }
}
