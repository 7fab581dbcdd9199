/** The user test-data factory: timestamped unique emails, random passwords
    with mandatory character classes and an index-removal shuffle, and
    signup payloads with falsy defaults and extra fields. The clock reading
    is a parameter (`millis`), `secrets.choice` is the oracle `rand` (the
    k-th draw of a call picks `options[rand(k) % |options|]`), and the name
    Faker would produce is the parameter `fakeName`. */
module DataFactory {
  import opened Wrappers
  import opened Text
  import opened JsonValues

  // ---------------------------------------------------------------------
  // Unique emails
  // ---------------------------------------------------------------------

  const DefaultEmailPrefix := "test"
  const DefaultDomain := "example.com"

  /** `prefix` + "_" + millis + "@" + `domain`, the email embedding the
      given millisecond clock reading. */
  function UniqueEmail(prefix: string, domain: string, millis: nat): (r: string)
    ensures StampOf(prefix, domain, r) == Some(millis)
  {
    var head, stamp, tail := prefix + "_", NatToString(millis), "@" + domain;
    var r := head + stamp + tail;
    ThreeParts(head, stamp, tail);
    DigitsValueOfNatToString(millis);
    assert prefix + "_" + stamp + "@" + domain == r;
    r
  }

  /** Slicing a three-part concatenation at the part boundaries. */
  lemma ThreeParts(a: string, b: string, c: string)
    ensures (a + b + c)[..|a|] == a
    ensures (a + b + c)[|a|..|a| + |b|] == b
    ensures (a + b + c)[|a| + |b|..] == c
  {
  }

  /** Reads the clock value back out of an email of the shape
      `prefix_<digits>@domain`; None for any other shape. */
  function StampOf(prefix: string, domain: string, email: string): (r: Option<nat>)
    ensures r.Some? ==> |email| > |prefix| + |domain| + 2
  {
    if |email| > |prefix| + |domain| + 2
       && email[..|prefix| + 1] == prefix + "_"
       && email[|email| - |domain| - 1..] == "@" + domain
       && AllDigits(email[|prefix| + 1..|email| - |domain| - 1])
    then Some(DigitsValue(email[|prefix| + 1..|email| - |domain| - 1]))
    else None
  }

  /** For a fixed prefix and domain, different clock readings never give the
      same email. */
  lemma UniqueEmailInjective(prefix: string, domain: string, m: nat, n: nat)
    requires m != n
    ensures UniqueEmail(prefix, domain, m) != UniqueEmail(prefix, domain, n)
  {
    var a, b := UniqueEmail(prefix, domain, m), UniqueEmail(prefix, domain, n);
    assert StampOf(prefix, domain, a) == Some(m);
    assert StampOf(prefix, domain, b) == Some(n);
  }

  /** The email the argument-less call builds. */
  lemma DefaultUniqueEmail(millis: nat)
    ensures UniqueEmail(DefaultEmailPrefix, DefaultDomain, millis)
         == "test_" + NatToString(millis) + "@example.com"
  {
  }

  // ---------------------------------------------------------------------
  // Character classes
  // ---------------------------------------------------------------------

  predicate IsUpper(c: char) {
    'A' <= c <= 'Z'
  }

  predicate IsLower(c: char) {
    'a' <= c <= 'z'
  }

  const Specials := "!@#$%^&*"

  predicate IsSpecial(c: char) {
    c in Specials
  }

  /** `string.ascii_uppercase`, `string.ascii_lowercase`, `string.digits`. */
  const Uppercase := "ABCDEFGHIJKLMNOPQRSTUVWXYZ"
  const Lowercase := "abcdefghijklmnopqrstuvwxyz"
  const Digits := "0123456789"

  /** A character the generator may emit. */
  predicate InAlphabet(c: char, includeSpecial: bool) {
    IsUpper(c) || IsLower(c) || IsDigit(c) || (includeSpecial && IsSpecial(c))
  }

  /** `ascii_letters + digits`, plus the specials when they are enabled. */
  function Alphabet(includeSpecial: bool): (r: string)
    ensures |r| > 0
    ensures forall i :: 0 <= i < |r| ==> InAlphabet(r[i], includeSpecial)
  {
    Lowercase + Uppercase + Digits + (if includeSpecial then Specials else "")
  }

  /** `secrets.choice(options)` with the draw `x`. */
  function Choice<T>(options: seq<T>, x: nat): (c: T)
    requires |options| > 0
    ensures c in options
  {
    options[x % |options|]
  }

  lemma ChoiceInClass(options: string, x: nat, p: char -> bool)
    requires |options| > 0 && forall i :: 0 <= i < |options| ==> p(options[i])
    ensures p(Choice(options, x))
  {
  }

  // ---------------------------------------------------------------------
  // Passwords
  // ---------------------------------------------------------------------

  /** How many characters the mandatory classes contribute. */
  function RequiredCount(includeSpecial: bool): nat {
    if includeSpecial then 4 else 3
  }

  function Max(a: int, b: int): int {
    if a < b then b else a
  }

  lemma ChoiceUpper(x: nat)
    ensures IsUpper(Choice(Uppercase, x))
  {
    ChoiceInClass(Uppercase, x, IsUpper);
  }

  lemma ChoiceLower(x: nat)
    ensures IsLower(Choice(Lowercase, x))
  {
    ChoiceInClass(Lowercase, x, IsLower);
  }

  lemma ChoiceDigit(x: nat)
    ensures IsDigit(Choice(Digits, x))
  {
    ChoiceInClass(Digits, x, IsDigit);
  }

  /** One uppercase letter, one lowercase letter, one digit (draws 0-2), and
      one special (draw 3) when enabled. */
  function RequiredChars(includeSpecial: bool, rand: nat -> nat): (r: string)
    ensures |r| == RequiredCount(includeSpecial)
    ensures IsUpper(r[0]) && IsLower(r[1]) && IsDigit(r[2])
    ensures includeSpecial ==> IsSpecial(r[3])
    ensures forall i :: 0 <= i < |r| ==> InAlphabet(r[i], includeSpecial)
  {
    var upper, lower, digit := Choice(Uppercase, rand(0)), Choice(Lowercase, rand(1)), Choice(Digits, rand(2));
    ChoiceUpper(rand(0));
    ChoiceLower(rand(1));
    ChoiceDigit(rand(2));
    if includeSpecial then [upper, lower, digit, Choice(Specials, rand(3))] else [upper, lower, digit]
  }

  /** `count` alphabet draws, numbered from `start`. */
  function Fill(includeSpecial: bool, rand: nat -> nat, start: nat, count: nat): (r: string)
    ensures |r| == count
    ensures forall i :: 0 <= i < count ==> InAlphabet(r[i], includeSpecial)
  {
    var alphabet := Alphabet(includeSpecial);
    var r := seq(count, i requires 0 <= i < count => Choice(alphabet, rand(start + i)));
    forall i | 0 <= i < count
      ensures InAlphabet(r[i], includeSpecial)
    {
      ChoiceInAlphabet(includeSpecial, rand(start + i));
    }
    r
  }

  lemma ChoiceInAlphabet(includeSpecial: bool, x: nat)
    ensures InAlphabet(Choice(Alphabet(includeSpecial), x), includeSpecial)
  {
    var alphabet := Alphabet(includeSpecial);
    assert Choice(alphabet, x) == alphabet[x % |alphabet|];
  }

  /** The password list before the shuffle: the required characters, then
      `length - len(password)` alphabet draws (none when that is negative,
      as `range` of a negative count is empty). */
  function PreShuffle(length: int, includeSpecial: bool, rand: nat -> nat): (r: string)
    ensures |r| == Max(length, RequiredCount(includeSpecial))
    ensures IsUpper(r[0]) && IsLower(r[1]) && IsDigit(r[2])
    ensures includeSpecial ==> IsSpecial(r[3])
    ensures forall i :: 0 <= i < |r| ==> InAlphabet(r[i], includeSpecial)
  {
    var required := RequiredChars(includeSpecial, rand);
    var remaining := length - |required|;
    var fill := Fill(includeSpecial, rand, |required|, if remaining < 0 then 0 else remaining);
    var r := required + fill;
    assert r[..|required|] == required;
    r
  }

  /** `list(range(n))`. */
  function Range(n: nat): (r: seq<nat>)
    ensures |r| == n && forall i :: 0 <= i < n ==> r[i] == i
  {
    seq(n, i requires 0 <= i => i)
  }

  /** Position of the first occurrence of `x` in `s`. */
  function IndexOf(s: seq<nat>, x: nat): (j: nat)
    requires x in s
    ensures j < |s| && s[j] == x && x !in s[..j]
  {
    if s[0] == x then 0 else IndexOf(s[1..], x) + 1
  }

  /** `list.remove(x)`: drops the first occurrence of `x`. */
  function RemoveFirst(s: seq<nat>, x: nat): (r: seq<nat>)
    requires x in s
    ensures multiset(r) + multiset{x} == multiset(s)
  {
    var j := IndexOf(s, x);
    assert s == s[..j] + [x] + s[j + 1..];
    s[..j] + s[j + 1..]
  }

  /** The characters of `xs` at the given indices, in order. */
  function Pick(xs: string, indices: seq<nat>): (r: string)
    requires forall i :: 0 <= i < |indices| ==> indices[i] < |xs|
    ensures |r| == |indices| && forall i :: 0 <= i < |indices| ==> r[i] == xs[indices[i]]
  {
    seq(|indices|, i requires 0 <= i < |indices| => xs[indices[i]])
  }

  /** `RemoveFirst` cuts `s` around one occurrence of `x`. */
  lemma RemoveFirstSplit(s: seq<nat>, x: nat) returns (a: seq<nat>, b: seq<nat>)
    requires x in s
    ensures s == a + [x] + b && RemoveFirst(s, x) == a + b
  {
    var j := IndexOf(s, x);
    a, b := s[..j], s[j + 1..];
    assert s == a + [x] + b;
  }

  lemma PickConcat(xs: string, a: seq<nat>, b: seq<nat>)
    requires forall i :: 0 <= i < |a + b| ==> (a + b)[i] < |xs|
    ensures forall i :: 0 <= i < |a| ==> a[i] < |xs|
    ensures forall i :: 0 <= i < |b| ==> b[i] < |xs|
    ensures Pick(xs, a + b) == Pick(xs, a) + Pick(xs, b)
  {
    assert forall i :: 0 <= i < |a| ==> a[i] == (a + b)[i];
    assert forall i :: 0 <= i < |b| ==> b[i] == (a + b)[|a| + i];
  }

  /** Picking at a removed index takes that character out of the pick. */
  lemma {:induction false} PickRemoveFirst(xs: string, indices: seq<nat>, x: nat)
    requires forall i :: 0 <= i < |indices| ==> indices[i] < |xs|
    requires x in indices
    ensures forall i :: 0 <= i < |RemoveFirst(indices, x)| ==> RemoveFirst(indices, x)[i] < |xs|
    ensures multiset(Pick(xs, RemoveFirst(indices, x))) + multiset{xs[x]} == multiset(Pick(xs, indices))
  {
    var a, b := RemoveFirstSplit(indices, x);
    PickConcat(xs, a + [x], b);
    PickConcat(xs, a, [x]);
    PickConcat(xs, a, b);
    assert Pick(xs, [x]) == [xs[x]];
  }

  /** Every index is below `n`. */
  predicate IndicesBelow(indices: seq<nat>, n: nat) {
    forall i :: 0 <= i < |indices| ==> indices[i] < n
  }

  /** Position k of `ys` holds the character of `xs` at the k-th chosen
      index. */
  predicate ChosenFrom(xs: string, ys: string, order: seq<nat>) {
    |ys| == |order| && forall k :: 0 <= k < |order| ==> order[k] < |xs| && ys[k] == xs[order[k]]
  }

  lemma ChosenAppend(xs: string, ys: string, order: seq<nat>, idx: nat)
    requires ChosenFrom(xs, ys, order) && idx < |xs|
    ensures ChosenFrom(xs, ys + [xs[idx]], order + [idx])
  {
  }

  /** The shuffle loop: repeatedly choose one of the remaining indices,
      append its character, and remove the index. Every index is taken
      exactly once, so the result is a permutation of `xs`. The draws used
      are `start`, `start + 1`, ... */
  method Shuffle(xs: string, rand: nat -> nat, start: nat) returns (ys: string, order: seq<nat>)
    ensures |ys| == |xs| && |order| == |xs|
    ensures multiset(order) == multiset(Range(|xs|))
    ensures ChosenFrom(xs, ys, order)
    ensures multiset(ys) == multiset(xs)
  {
    var indices: seq<nat> := Range(|xs|);
    assert Pick(xs, indices) == xs;
    ys, order := [], [];
    var step := 0;
    while |indices| > 0
      invariant |order| + |indices| == |xs|
      invariant IndicesBelow(indices, |xs|)
      invariant multiset(order) + multiset(indices) == multiset(Range(|xs|))
      invariant ChosenFrom(xs, ys, order)
      invariant multiset(ys) + multiset(Pick(xs, indices)) == multiset(xs)
      decreases |indices|
    {
      var idx := Choice(indices, rand(start + step));
      PickRemoveFirst(xs, indices, idx);
      ChosenAppend(xs, ys, order, idx);
      var rest := RemoveFirst(indices, idx);
      assert multiset(order + [idx]) == multiset(order) + multiset{idx};
      assert multiset(ys + [xs[idx]]) == multiset(ys) + multiset{xs[idx]};
      ys := ys + [xs[idx]];
      order := order + [idx];
      indices := rest;
      step := step + 1;
    }
  }

  predicate HasUpper(s: string) {
    exists i :: 0 <= i < |s| && IsUpper(s[i])
  }

  predicate HasLower(s: string) {
    exists i :: 0 <= i < |s| && IsLower(s[i])
  }

  predicate HasSpecial(s: string) {
    exists i :: 0 <= i < |s| && IsSpecial(s[i])
  }

  /** What the generator promises of a password: its length, one character
      of each mandatory class, and nothing outside the alphabet. */
  predicate PasswordRules(p: string, length: int, includeSpecial: bool) {
    && |p| == Max(length, RequiredCount(includeSpecial))
    && HasUpper(p) && HasLower(p) && HasDigit(p)
    && (includeSpecial ==> HasSpecial(p))
    && (forall i :: 0 <= i < |p| ==> InAlphabet(p[i], includeSpecial))
  }

  /** `random_password(length, include_special)`. */
  method RandomPassword(length: int, includeSpecial: bool, rand: nat -> nat) returns (password: string)
    ensures PasswordRules(password, length, includeSpecial)
    ensures !includeSpecial ==> !HasSpecial(password)
    ensures multiset(password) == multiset(PreShuffle(length, includeSpecial, rand))
  {
    var pre := PreShuffle(length, includeSpecial, rand);
    var order;
    password, order := Shuffle(pre, rand, |pre|);
    PermutationKeepsRules(pre, password, length, includeSpecial);
  }

  /** A permutation of a list that meets the password rules meets them too. */
  lemma PermutationKeepsRules(pre: string, p: string, length: int, includeSpecial: bool)
    requires multiset(p) == multiset(pre)
    requires |pre| == Max(length, RequiredCount(includeSpecial))
    requires IsUpper(pre[0]) && IsLower(pre[1]) && IsDigit(pre[2])
    requires includeSpecial ==> IsSpecial(pre[3])
    requires forall i :: 0 <= i < |pre| ==> InAlphabet(pre[i], includeSpecial)
    ensures PasswordRules(p, length, includeSpecial)
  {
    assert |p| == |multiset(p)| == |multiset(pre)| == |pre|;
    var u := OccursInPermutation(pre, p, 0);
    assert IsUpper(p[u]);
    var l := OccursInPermutation(pre, p, 1);
    assert IsLower(p[l]);
    var d := OccursInPermutation(pre, p, 2);
    assert IsDigit(p[d]);
    if includeSpecial {
      var x := OccursInPermutation(pre, p, 3);
      assert IsSpecial(p[x]);
    }
    forall j | 0 <= j < |p|
      ensures InAlphabet(p[j], includeSpecial)
    {
      var i := OccursInPermutation(p, pre, j);
    }
  }

  /** Where the i-th character of `a` sits in a permutation `b` of it. */
  lemma OccursInPermutation(a: string, b: string, i: nat) returns (j: nat)
    requires multiset(a) == multiset(b) && i < |a|
    ensures j < |b| && b[j] == a[i]
  {
    assert a[i] in multiset(a);
    assert a[i] in b;
    j :| 0 <= j < |b| && b[j] == a[i];
  }

  // ---------------------------------------------------------------------
  // Signup payloads
  // ---------------------------------------------------------------------

  /** Python truthiness of an optional string argument. */
  predicate Truthy(s: Option<string>) {
    s.Some? && s.value != ""
  }

  const DefaultPasswordLength := 12

  /** `create_signup_payload(name, email, password, **extras)`. A truthy
      argument is kept; otherwise the name is Faker's `fakeName`, the email
      is the default unique email for `millis`, and the password is
      generated. Python binds `name`, `email` and `password` to the
      parameters, so `extras` cannot carry them. */
  method CreateSignupPayload(
    name: Option<string>, email: Option<string>, password: Option<string>,
    extras: map<string, Json>, fakeName: string, millis: nat, rand: nat -> nat)
    returns (payload: map<string, Json>)
    requires "name" !in extras && "email" !in extras && "password" !in extras
    ensures payload.Keys == {"name", "email", "password"} + extras.Keys
    ensures forall k :: k in extras ==> payload[k] == extras[k]
    ensures payload["name"] == JString(if Truthy(name) then name.value else fakeName)
    ensures Truthy(email) ==> payload["email"] == JString(email.value)
    ensures !Truthy(email) ==>
              payload["email"].JString?
              && StampOf(DefaultEmailPrefix, DefaultDomain, payload["email"].s) == Some(millis)
    ensures Truthy(password) ==> payload["password"] == JString(password.value)
    ensures !Truthy(password) ==>
              payload["password"].JString?
              && PasswordRules(payload["password"].s, DefaultPasswordLength, true)
  {
    var n := if Truthy(name) then name.value else fakeName;
    var e := if Truthy(email) then email.value else UniqueEmail(DefaultEmailPrefix, DefaultDomain, millis);
    var p;
    if Truthy(password) {
      p := password.value;
    } else {
      p := RandomPassword(DefaultPasswordLength, true, rand);
    }
    payload := MergePayload(n, e, p, extras);
    assert payload["email"] == JString(e) && payload["password"] == JString(p);
  }

  /** `payload.update(extras)` on the three-key payload. */
  function MergePayload(name: string, email: string, password: string, extras: map<string, Json>)
    : (r: map<string, Json>)
    requires "name" !in extras && "email" !in extras && "password" !in extras
    ensures r.Keys == {"name", "email", "password"} + extras.Keys
    ensures forall k :: k in extras ==> r[k] == extras[k]
    ensures r["name"] == JString(name) && r["email"] == JString(email) && r["password"] == JString(password)
  {
    map["name" := JString(name), "email" := JString(email), "password" := JString(password)] + extras
  }
}
