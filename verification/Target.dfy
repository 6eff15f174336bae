/**
 * The secret inside a monitor's target: where it is, and what masking, restoring and redacting do to it.
 */
module Target {
  import opened Prelude

  const SECRET_MASK := "__vigil_unchanged_secret__"

  // ----- searching -----

  predicate SchemeAt(s: string, i: nat) {
    i + 3 <= |s| && s[i] == ':' && s[i + 1] == '/' && s[i + 2] == '/'
  }

  /** `s.indexOf("://", from)`, or `|s|` where there is none. */
  function SchemeIndex(s: string, from: nat): (i: nat)
    requires from <= |s|
    ensures from <= i <= |s| && (i == |s| || SchemeAt(s, i))
    ensures forall k: nat :: from <= k < i ==> !SchemeAt(s, k)
    decreases |s| - from
  {
    if from == |s| || SchemeAt(s, from) then from else SchemeIndex(s, from + 1)
  }

  predicate EndsAuthority(c: char) { c == '/' || c == '?' || c == '#' }

  /** Where the authority that starts at `from` ends. */
  function AuthorityEnd(s: string, from: nat): (end: nat)
    requires from <= |s|
    ensures from <= end <= |s| && (end == |s| || EndsAuthority(s[end]))
    ensures forall k :: from <= k < end ==> !EndsAuthority(s[k])
    decreases |s| - from
  {
    if from == |s| || EndsAuthority(s[from]) then from else AuthorityEnd(s, from + 1)
  }

  /** `s.lastIndexOf(c, end - 1)`. */
  function LastIndex(s: string, c: char, end: nat): (i: int)
    requires end <= |s|
    ensures -1 <= i < end && (i >= 0 ==> s[i] == c)
    ensures forall k :: i < k < end ==> s[k] != c
  {
    if end == 0 then -1 else if s[end - 1] == c then end - 1 else LastIndex(s, c, end - 1)
  }

  /** `s.indexOf(c, from)`. */
  function FirstIndex(s: string, c: char, from: nat): (i: int)
    requires from <= |s|
    ensures i == -1 || (from <= i < |s| && s[i] == c)
    ensures forall k :: from <= k < (if i == -1 then |s| else i) ==> s[k] != c
    decreases |s| - from
  {
    if from == |s| then -1 else if s[from] == c then from else FirstIndex(s, c, from + 1)
  }

  // ----- the target -----

  datatype Parts = Parts(scheme: string, userinfo: string, rest: string)

  function SplitTarget(target: string): Option<Parts> {
    var scheme := SchemeIndex(target, 0);
    if scheme == |target| then None
    else
      var start := scheme + 3;
      var at := LastIndex(target, '@', AuthorityEnd(target, start));
      if at < start then Some(Parts(target[..start], "", target[start..]))
      else Some(Parts(target[..start], target[start..at], target[at + 1..]))
  }

  /** A userinfo divided at its first colon. */
  datatype Login = NameOnly | Login(user: string, secret: string)

  function LoginOf(userinfo: string): Login {
    var colon := FirstIndex(userinfo, ':', 0);
    if colon == -1 then NameOnly else Login(userinfo[..colon], userinfo[colon + 1..])
  }

  function Redact(target: string): string {
    match SplitTarget(target)
    case None => target
    case Some(parts) => if parts.userinfo == "" then target else parts.scheme + parts.rest
  }

  function TargetPassword(target: string): Option<string> {
    match SplitTarget(target)
    case None => None
    case Some(parts) =>
      match LoginOf(parts.userinfo)
      case NameOnly => None
      case Login(_, secret) => if secret == "" then None else Some(secret)
  }

  function Mask(target: string): string {
    match SplitTarget(target)
    case None => target
    case Some(parts) =>
      match LoginOf(parts.userinfo)
      case NameOnly => target
      case Login(user, _) => Compose(WithSecret(parts, user, SECRET_MASK))
  }

  function Restore(next: string, stored: Option<string>): string {
    match SplitTarget(next)
    case None => next
    case Some(parts) =>
      match LoginOf(parts.userinfo)
      case NameOnly => next
      case Login(user, shown) =>
        if shown != SECRET_MASK then next
        else
          var secret := if stored.None? then "" else StoredSecret(stored.value);
          if secret == "" then Compose(Parts(parts.scheme, user, parts.rest))
          else Compose(WithSecret(parts, user, secret))
  }

  function StoredSecret(stored: string): string {
    match SplitTarget(stored)
    case None => ""
    case Some(parts) =>
      match LoginOf(parts.userinfo)
      case NameOnly => ""
      case Login(_, secret) => secret
  }

  /** Scheme, userinfo and the rest, with the `@` back between them. */
  function Compose(p: Parts): string {
    p.scheme + (p.userinfo + ("@" + p.rest))
  }

  /** The parts with another user and secret in their place. */
  function WithSecret(p: Parts, user: string, secret: string): Parts {
    Parts(p.scheme, user + (":" + secret), p.rest)
  }

  // ----- where the credential is -----

  ghost predicate NoneEnds(s: string) {
    forall k :: 0 <= k < |s| ==> !EndsAuthority(s[k])
  }

  /** It ends with the first `://` in it. */
  ghost predicate IsScheme(s: string) {
    |s| >= 3 && SchemeAt(s, |s| - 3) && forall k: nat :: k < |s| - 3 ==> !SchemeAt(s, k)
  }

  /** No `@` before the authority ends. */
  ghost predicate NoAt(rest: string) {
    forall k :: 0 <= k < AuthorityEnd(rest, 0) ==> rest[k] != '@'
  }

  /** A target with a userinfo, taken apart at the right places. */
  ghost predicate TakenApart(p: Parts) {
    IsScheme(p.scheme) && NoneEnds(p.userinfo) && NoAt(p.rest)
  }

  lemma SchemeStays(scheme: string, after: string)
    requires IsScheme(scheme)
    ensures SchemeIndex(scheme + after, 0) == |scheme| - 3
  {
    var s := scheme + after;
    assert SchemeAt(s, |scheme| - 3);
    forall k: nat | k < |scheme| - 3 ensures !SchemeAt(s, k) {
      assert !SchemeAt(scheme, k);
    }
  }

  /** The authority of what follows the scheme ends where the authority of the rest does. */
  lemma AuthorityMoves(s: string, from: nat, n: nat, rest: string)
    requires from <= n && |s| == n + |rest| && forall k :: 0 <= k < |rest| ==> s[n + k] == rest[k]
    requires forall k :: from <= k < n ==> !EndsAuthority(s[k])
    ensures AuthorityEnd(s, from) == n + AuthorityEnd(rest, 0)
  {
    var e, r := AuthorityEnd(s, from), AuthorityEnd(rest, 0);
    assert e >= n;
    assert r < |rest| ==> EndsAuthority(s[n + r]);
    assert forall k :: n <= k < n + r ==> s[k] == rest[k - n];
  }

  lemma LastIs(s: string, c: char, end: nat, at: nat)
    requires at < end <= |s| && s[at] == c && forall k :: at < k < end ==> s[k] != c
    ensures LastIndex(s, c, end) == at
  {
  }

  lemma SplitKnown(target: string, start: nat, end: nat, at: nat)
    requires start <= |target| && SchemeIndex(target, 0) + 3 == start && AuthorityEnd(target, start) == end
    requires LastIndex(target, '@', end) == at && start <= at
    ensures SplitTarget(target) == Some(Parts(target[..start], target[start..at], target[at + 1..]))
  {
  }

  /** The parts lie in `s` with an `@` at `n`. */
  ghost predicate Lies(s: string, p: Parts, n: nat) {
    && |p.scheme| <= n < |s| && s[n] == '@'
    && s[..|p.scheme|] == p.scheme && s[|p.scheme|..n] == p.userinfo && s[n + 1..] == p.rest
  }

  lemma ComposedLies(p: Parts)
    ensures Lies(Compose(p), p, |p.scheme| + |p.userinfo|)
  {
  }

  lemma LiesComposed(s: string, p: Parts, n: nat)
    requires Lies(s, p, n)
    ensures s == Compose(p)
  {
  }

  lemma AuthorityLies(s: string, p: Parts, n: nat)
    requires Lies(s, p, n) && NoneEnds(p.userinfo)
    ensures AuthorityEnd(s, |p.scheme|) == n + 1 + AuthorityEnd(p.rest, 0)
  {
    forall k | |p.scheme| <= k < n + 1 ensures !EndsAuthority(s[k]) {
      assert k < n ==> s[k] == s[|p.scheme|..n][k - |p.scheme|];
    }
    AuthorityMoves(s, |p.scheme|, n + 1, p.rest);
  }

  lemma LastLies(s: string, p: Parts, n: nat)
    requires Lies(s, p, n) && NoAt(p.rest)
    ensures LastIndex(s, '@', n + 1 + AuthorityEnd(p.rest, 0)) == n
  {
    forall k | n < k < n + 1 + AuthorityEnd(p.rest, 0) ensures s[k] != '@' {
      assert s[k] == p.rest[k - n - 1];
    }
    LastIs(s, '@', n + 1 + AuthorityEnd(p.rest, 0), n);
  }

  lemma SchemeLies(s: string, p: Parts, n: nat)
    requires Lies(s, p, n) && IsScheme(p.scheme)
    ensures SchemeIndex(s, 0) == |p.scheme| - 3
  {
    SchemeStays(p.scheme, s[|p.scheme|..]);
    assert s == p.scheme + s[|p.scheme|..];
  }

  lemma SplitLies(s: string, p: Parts, n: nat)
    requires Lies(s, p, n) && TakenApart(p)
    ensures SplitTarget(s) == Some(p)
  {
    SchemeLies(s, p, n);
    AuthorityLies(s, p, n);
    LastLies(s, p, n);
    SplitKnown(s, |p.scheme|, AuthorityEnd(s, |p.scheme|), n);
  }

  lemma SplitComposed(p: Parts)
    requires TakenApart(p)
    ensures SplitTarget(Compose(p)) == Some(p)
  {
    ComposedLies(p);
    SplitLies(Compose(p), p, |p.scheme| + |p.userinfo|);
  }

  lemma PlainKnown(target: string, start: nat, end: nat)
    requires start <= |target| && SchemeIndex(target, 0) + 3 == start && AuthorityEnd(target, start) == end
    requires forall k :: start <= k < end ==> target[k] != '@'
    ensures SplitTarget(target) == Some(Parts(target[..start], "", target[start..]))
  {
  }

  lemma PlainSplit(scheme: string, after: string)
    requires IsScheme(scheme) && NoAt(after)
    ensures SplitTarget(scheme + after) == Some(Parts(scheme, "", after))
  {
    var target, n := scheme + after, |scheme|;
    SchemeStays(scheme, after);
    AuthorityMoves(target, n, n, after);
    forall k | n <= k < n + AuthorityEnd(after, 0) ensures target[k] != '@' {
      assert target[k] == after[k - n];
    }
    PlainKnown(target, n, n + AuthorityEnd(after, 0));
    assert target[..n] == scheme && target[n..] == after;
  }

  lemma SchemeCut(target: string)
    requires SchemeIndex(target, 0) < |target|
    ensures IsScheme(target[..SchemeIndex(target, 0) + 3])
  {
    var scheme := target[..SchemeIndex(target, 0) + 3];
    forall k: nat | k < |scheme| - 3 ensures !SchemeAt(scheme, k) {
      assert !SchemeAt(target, k);
    }
  }

  lemma RestHasNoAt(target: string, start: nat, at: nat)
    requires start <= at < |target| && LastIndex(target, '@', AuthorityEnd(target, start)) == at
    ensures NoAt(target[at + 1..])
  {
    var rest, end := target[at + 1..], AuthorityEnd(target, start);
    AuthorityMoves(target, start, at + 1, rest);
    forall k | 0 <= k < AuthorityEnd(rest, 0) ensures rest[k] != '@' {
      assert rest[k] == target[at + 1 + k];
    }
  }

  lemma UserInfoPlain(target: string, start: nat, at: nat)
    requires start <= at < |target| && LastIndex(target, '@', AuthorityEnd(target, start)) == at
    ensures NoneEnds(target[start..at])
  {
  }

  /** A target with a userinfo is its parts, put together. */
  lemma SplitTakesApart(target: string)
    requires SplitTarget(target).Some? && SplitTarget(target).value.userinfo != ""
    ensures TakenApart(SplitTarget(target).value) && target == Compose(SplitTarget(target).value)
  {
    var start := SchemeIndex(target, 0) + 3;
    var at := LastIndex(target, '@', AuthorityEnd(target, start));
    SchemeCut(target);
    UserInfoPlain(target, start, at);
    RestHasNoAt(target, start, at);
    LiesComposed(target, SplitTarget(target).value, at);
  }

  // ----- colons -----

  lemma LoginComposed(user: string, secret: string)
    requires ':' !in user
    ensures LoginOf(user + (":" + secret)) == Login(user, secret)
  {
    var userinfo := user + (":" + secret);
    assert userinfo[|user|] == ':' && forall k :: 0 <= k < |user| ==> userinfo[k] == user[k] != ':';
    assert userinfo[..|user|] == user && userinfo[|user| + 1..] == secret;
  }

  lemma LoginTakesApart(userinfo: string)
    requires LoginOf(userinfo).Login?
    ensures var login := LoginOf(userinfo);
            ':' !in login.user && userinfo == login.user + (":" + login.secret)
  {
  }

  lemma ReplacedSecret(p: Parts, user: string, secret: string)
    requires TakenApart(p) && NoneEnds(user) && ':' !in user && NoneEnds(secret)
    ensures SplitTarget(Compose(WithSecret(p, user, secret))) == Some(WithSecret(p, user, secret))
    ensures LoginOf(WithSecret(p, user, secret).userinfo) == Login(user, secret)
  {
    SplitComposed(WithSecret(p, user, secret));
    LoginComposed(user, secret);
  }

  /** A target known to hold these parts, this user and this secret. */
  ghost predicate Holds(target: string, p: Parts, user: string, secret: string) {
    && SplitTarget(target) == Some(p) && LoginOf(p.userinfo) == Login(user, secret)
    && TakenApart(p) && ':' !in user && NoneEnds(user) && NoneEnds(secret)
    && p == WithSecret(p, user, secret) && target == Compose(p)
  }

  /** The target has a colon in its userinfo. */
  predicate HasSecret(target: string) {
    SplitTarget(target).Some? && LoginOf(SplitTarget(target).value.userinfo).Login?
  }

  lemma SecretHolds(target: string) returns (p: Parts, user: string, secret: string)
    requires HasSecret(target)
    ensures Holds(target, p, user, secret)
  {
    p := SplitTarget(target).value;
    user, secret := LoginOf(p.userinfo).user, LoginOf(p.userinfo).secret;
    SplitTakesApart(target);
    LoginTakesApart(p.userinfo);
  }

  // ----- the edit form -----

  /** The target carries a colon with nothing after it. */
  predicate EmptyPassword(target: string) {
    HasSecret(target) && LoginOf(SplitTarget(target).value.userinfo).secret == ""
  }

  lemma ComposedHolds(p: Parts, user: string, secret: string)
    requires TakenApart(p) && NoneEnds(user) && ':' !in user && NoneEnds(secret)
    ensures Holds(Compose(WithSecret(p, user, secret)), WithSecret(p, user, secret), user, secret)
  {
    ReplacedSecret(p, user, secret);
  }

  lemma MaskIsPlain()
    ensures NoneEnds(SECRET_MASK) && SECRET_MASK != ""
  {
  }

  lemma MaskReplaces(target: string, p: Parts, user: string, secret: string)
    requires Holds(target, p, user, secret)
    ensures Mask(target) == Compose(WithSecret(p, user, SECRET_MASK))
  {
  }

  lemma MaskHolds(target: string, p: Parts, user: string, secret: string)
    requires Holds(target, p, user, secret)
    ensures Holds(Mask(target), WithSecret(p, user, SECRET_MASK), user, SECRET_MASK)
  {
    MaskIsPlain();
    MaskReplaces(target, p, user, secret);
    ComposedHolds(p, user, SECRET_MASK);
  }

  lemma PasswordHeld(target: string, p: Parts, user: string, secret: string)
    requires Holds(target, p, user, secret)
    ensures TargetPassword(target) == if secret == "" then None else Some(secret)
  {
  }

  lemma RestoreHolds(next: string, p: Parts, user: string, stored: string, q: Parts, name: string, secret: string)
    requires Holds(next, p, user, SECRET_MASK) && Holds(stored, q, name, secret)
    ensures Restore(next, Some(stored)) == Compose(if secret == "" then Parts(p.scheme, user, p.rest)
                                                   else WithSecret(p, user, secret))
  {
  }

  lemma ColonCounts(p: Parts, user: string)
    ensures |Compose(Parts(p.scheme, user, p.rest))| < |Compose(WithSecret(p, user, ""))|
  {
  }

  /** Saving the form untouched restores the target, unless its password is empty: then the colon is lost. */
  lemma RestoreUndoesMask(target: string)
    ensures Restore(Mask(target), Some(target)) == target <==> !EmptyPassword(target)
  {
    if HasSecret(target) {
      var p, user, secret := SecretHolds(target);
      MaskHolds(target, p, user, secret);
      RestoreHolds(Mask(target), WithSecret(p, user, SECRET_MASK), user, target, p, user, secret);
      ColonCounts(p, user);
    }
  }

  lemma ExampleTarget()
    ensures TakenApart(Parts("s://", "", "h")) && Compose(WithSecret(Parts("s://", "", "h"), "u", "")) == "s://u:@h"
  {
    assert SchemeAt("s://", 1) && !SchemeAt("s://", 0);
    assert "s://" + (("u" + (":" + "")) + ("@" + "h")) == "s://u:@h";
  }

  /** A target it fails for: the password is empty, and its colon does not come back. */
  lemma EmptyPasswordLosesColon()
    ensures EmptyPassword("s://u:@h") && Restore(Mask("s://u:@h"), Some("s://u:@h")) != "s://u:@h"
  {
    ExampleTarget();
    ComposedHolds(Parts("s://", "", "h"), "u", "");
    RestoreUndoesMask("s://u:@h");
  }

  /**
   * Whatever else the form changes, a mask left in place keeps the stored password: the saved
   * target is the submitted one with the secret where the mask was.
   */
  lemma EditKeepsPassword(next: string, stored: string, password: string)
    requires TargetPassword(next) == Some(SECRET_MASK) && TargetPassword(stored) == Some(password)
    ensures TargetPassword(Restore(next, Some(stored))) == Some(password)
    ensures exists p, user :: && Holds(next, WithSecret(p, user, SECRET_MASK), user, SECRET_MASK)
                              && Holds(Restore(next, Some(stored)), WithSecret(p, user, password), user, password)
  {
    var p, user, shown := SecretHolds(next);
    var q, name, secret := SecretHolds(stored);
    PasswordHeld(next, p, user, shown);
    PasswordHeld(stored, q, name, secret);
    RestoreHolds(next, p, user, stored, q, name, secret);
    ComposedHolds(p, user, password);
    PasswordHeld(Restore(next, Some(stored)), WithSecret(p, user, password), user, password);
    assert p == WithSecret(p, user, SECRET_MASK);
  }

  lemma DroppedMask(next: string, stored: Option<string>)
    requires TargetPassword(next) == Some(SECRET_MASK)
    requires stored.None? || TargetPassword(stored.value).None?
    ensures TargetPassword(Restore(next, stored)) == None
  {
    var p, user, shown := SecretHolds(next);
    PasswordHeld(next, p, user, shown);
    SplitComposed(Parts(p.scheme, user, p.rest));
  }

  /** The mask comes out of a restore only if it is itself the stored password. */
  lemma MaskNeverLeaves(next: string, stored: Option<string>)
    ensures TargetPassword(Restore(next, stored)) == Some(SECRET_MASK) <==>
            TargetPassword(next) == Some(SECRET_MASK) && stored.Some? && TargetPassword(stored.value) == Some(SECRET_MASK)
  {
    if TargetPassword(next) == Some(SECRET_MASK) {
      if stored.Some? && TargetPassword(stored.value).Some? {
        EditKeepsPassword(next, stored.value, TargetPassword(stored.value).value);
      } else {
        DroppedMask(next, stored);
      }
    }
  }

  // ----- what leaves -----

  lemma RedactSplits(target: string)
    requires SplitTarget(target).Some? && SplitTarget(target).value.userinfo != ""
    ensures SplitTarget(Redact(target)) == Some(Parts(SplitTarget(target).value.scheme, "", SplitTarget(target).value.rest))
  {
    SplitTakesApart(target);
    PlainSplit(SplitTarget(target).value.scheme, SplitTarget(target).value.rest);
  }

  /** What is shown carries no password, and redacting it again changes nothing. */
  lemma RedactionHides(target: string)
    ensures TargetPassword(Redact(target)) == None
    ensures Redact(Redact(target)) == Redact(target)
  {
    if SplitTarget(target).Some? && SplitTarget(target).value.userinfo != "" {
      RedactSplits(target);
    }
  }

  /** Masking before redacting makes no difference. */
  lemma RedactionIgnoresMask(target: string)
    ensures Redact(Mask(target)) == Redact(target)
  {
    if HasSecret(target) {
      var p, user, secret := SecretHolds(target);
      MaskHolds(target, p, user, secret);
    }
  }

  /** The masked and the redacted target do not depend on the password. */
  lemma OnlyTheUserShows(p: Parts, user: string, one: string, other: string)
    requires TakenApart(p) && NoneEnds(user) && ':' !in user && NoneEnds(one) && NoneEnds(other)
    ensures Mask(Compose(WithSecret(p, user, one))) == Mask(Compose(WithSecret(p, user, other)))
    ensures Redact(Compose(WithSecret(p, user, one))) == Redact(Compose(WithSecret(p, user, other)))
  {
    ReplacedSecret(p, user, one);
    ReplacedSecret(p, user, other);
  }
}
