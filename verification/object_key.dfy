/**
 * Object-key derivation (authenticateUserAndGenerateKey in src/app.js):
 * authenticate the uploader against the user table, then name the object
 * `<storedEmail>/<now>-<n>.<ext>`. The multer callback `cb` becomes the
 * single KeyResult the function returns; `Date.now()` and `Math.random()`
 * become the parameters `now` and `random`.
 */
module ObjectKey {
  import opened Http
  import opened Decimal

  /** Why the callback was given an error. */
  datatype KeyError =
    | UserNotFound          // no row for the email
    | AuthenticationFailed  // the password does not match the stored hash
    | Thrown                // the query or bcrypt.compare threw; cb(err) in the catch

  /** What the callback `cb` receives: an error, or no error and a key. */
  datatype KeyResult = KeyErr(error: KeyError) | KeyOk(key: string)

  /** The pieces a derived key is made of. */
  datatype KeyParts = KeyParts(timestamp: nat, tieBreak: nat, ext: string)

  /**
   * `originalname.split('.').pop()`: the text after the last `.`, the whole
   * name when it has no `.`.
   */
  function Extension(name: string): (ext: string)
    ensures '.' !in ext
    ensures |ext| <= |name| && ext == name[|name| - |ext|..]
    ensures |ext| < |name| ==> name[|name| - |ext| - 1] == '.'
    ensures |ext| == |name| <==> '.' !in name
    decreases |name|
  {
    if name == [] then []
    else if name[|name| - 1] == '.' then []
    else Extension(name[..|name| - 1]) + [name[|name| - 1]]
  }

  /** `Math.floor(Math.random() * 1000)` for a `random` drawn from [0, 1). */
  function TieBreak(random: real): (n: nat)
    requires 0.0 <= random < 1.0
    ensures n < 1000
    ensures n as real <= random * 1000.0 < n as real + 1.0
  {
    (random * 1000.0).Floor
  }

  /** The key template `${userEmail}/${Date.now()}-${n}.${fileExt}`. */
  function MakeKey(storedEmail: string, now: nat, n: nat, ext: string): (key: string)
    ensures |storedEmail| < |key| && key[..|storedEmail| + 1] == storedEmail + "/"
  {
    storedEmail + "/" + NatToString(now) + "-" + NatToString(n) + "." + ext
  }

  /**
   * authenticateUserAndGenerateKey: look the email up (a missing email is a
   * bind error that the catch hands to cb), fail with "User not found" when
   * there is no row, compare the password (a missing one makes bcrypt.compare
   * throw), fail with "Authentication failed" on a mismatch, and otherwise
   * hand cb the key. Every path yields exactly one result.
   */
  function AuthenticateAndGenerateKey(users: map<string, string>, email: Option<string>,
                                      password: Option<string>, originalName: string,
                                      now: nat, random: real,
                                      matches: (string, string) -> bool, queryFault: bool): (r: KeyResult)
    requires 0.0 <= random < 1.0
    ensures r.KeyOk? <==>
              !queryFault && email.Some? && email.value in users &&
              password.Some? && matches(password.value, users[email.value])
    ensures r == KeyErr(UserNotFound) <==> !queryFault && email.Some? && email.value !in users
    ensures r == KeyErr(AuthenticationFailed) <==>
              !queryFault && email.Some? && email.value in users &&
              password.Some? && !matches(password.value, users[email.value])
    ensures r.KeyOk? ==>
              r.key == MakeKey(email.value, now, TieBreak(random), Extension(originalName))
    ensures r.KeyOk? ==>
              |email.value| < |r.key| && r.key[..|email.value| + 1] == email.value + "/"
    ensures r.KeyOk? ==>
              ParseKey(email.value, r.key) == Some(KeyParts(now, TieBreak(random), Extension(originalName)))
  {
    if queryFault || email.None? then KeyErr(Thrown)
    else if email.value !in users then KeyErr(UserNotFound)
    else if password.None? then KeyErr(Thrown)
    else if !matches(password.value, users[email.value]) then KeyErr(AuthenticationFailed)
    else
      // the row's email is the map key it was found under
      var userEmail := email.value;
      var key := MakeKey(userEmail, now, TieBreak(random), Extension(originalName));
      ParseMakeKey(userEmail, now, TieBreak(random), Extension(originalName));
      KeyOk(key)
  }

  /** Index of the first `c` in `s`, or `|s|` when there is none. */
  function IndexOf(s: string, c: char): (i: nat)
    ensures i <= |s|
    ensures forall k :: 0 <= k < i ==> s[k] != c
    ensures i < |s| ==> s[i] == c
  {
    if s == [] then 0
    else if s[0] == c then 0
    else 1 + IndexOf(s[1..], c)
  }

  /** The text before and after the first `c` in `s`, if there is one. */
  function SplitFirst(s: string, c: char): Option<(string, string)> {
    var i := IndexOf(s, c);
    if i == |s| then None else Some((s[..i], s[i + 1..]))
  }

  /**
   * Reads a key back as `owner`'s: the `<owner>/` prefix, the timestamp up
   * to the first `-`, the tie-breaker up to the next `.`, and the rest as
   * the extension. Both numbers must be written as JavaScript writes them.
   */
  function ParseKey(owner: string, key: string): Option<KeyParts> {
    if |key| <= |owner| || key[..|owner| + 1] != owner + "/" then None
    else
      match SplitFirst(key[|owner| + 1..], '-')
      case None => None
      case Some((stamp, afterDash)) =>
        match SplitFirst(afterDash, '.')
        case None => None
        case Some((tie, ext)) =>
          if !Canonical(stamp) || !Canonical(tie) then None
          else Some(KeyParts(DigitsValue(stamp), DigitsValue(tie), ext))
  }

  /** Splitting `a + [c] + b` at its first `c` gives back `a` and `b` when `a` holds no `c`. */
  lemma SplitAtFirst(a: string, c: char, b: string)
    requires c !in a
    ensures SplitFirst(a + [c] + b, c) == Some((a, b))
  {
    var s := a + [c] + b;
    assert s[|a|] == c;
    assert forall k :: 0 <= k < |a| ==> s[k] == a[k];
    assert IndexOf(s, c) == |a|;
    assert s[..|a|] == a;
    assert s[|a| + 1..] == b;
  }

  /** A character that is not a digit does not occur in a digit run. */
  lemma NonDigitNotInDigits(s: string, c: char)
    requires AllDigits(s) && !IsDigit(c)
    ensures c !in s
  {
  }

  /** ParseKey splits `<owner>/<stamp>-<tie>.<ext>` back into its digit runs and extension. */
  lemma ParseDigitRuns(owner: string, stamp: string, tie: string, ext: string)
    requires Canonical(stamp) && Canonical(tie)
    ensures ParseKey(owner, owner + "/" + stamp + "-" + tie + "." + ext) ==
            Some(KeyParts(DigitsValue(stamp), DigitsValue(tie), ext))
  {
    var afterDash := tie + ['.'] + ext;
    var rest := stamp + ['-'] + afterDash;
    var key := owner + "/" + stamp + "-" + tie + "." + ext;
    assert key == (owner + "/") + rest;
    assert key[..|owner| + 1] == owner + "/";
    assert key[|owner| + 1..] == rest;
    NonDigitNotInDigits(stamp, '-');
    SplitAtFirst(stamp, '-', afterDash);
    NonDigitNotInDigits(tie, '.');
    SplitAtFirst(tie, '.', ext);
  }

  /** ParseKey recovers the timestamp, the tie-breaker and the extension a key was made from. */
  lemma ParseMakeKey(owner: string, now: nat, n: nat, ext: string)
    ensures ParseKey(owner, MakeKey(owner, now, n, ext)) == Some(KeyParts(now, n, ext))
  {
    ParseDigitRuns(owner, NatToString(now), NatToString(n), ext);
    DigitsValueOfNatToString(now);
    DigitsValueOfNatToString(n);
  }

  /** A successful split is undone by joining the two halves around `c`. */
  lemma SplitFirstJoins(s: string, c: char)
    requires SplitFirst(s, c).Some?
    ensures var (a, b) := SplitFirst(s, c).value;
            c !in a && s == a + [c] + b
  {
  }

  /** MakeKey writes canonical digit runs back exactly as they were. */
  lemma MakeKeyOfDigitRuns(owner: string, stamp: string, tie: string, ext: string)
    requires Canonical(stamp) && Canonical(tie)
    ensures MakeKey(owner, DigitsValue(stamp), DigitsValue(tie), ext) ==
            (owner + "/") + (stamp + ['-'] + (tie + ['.'] + ext))
  {
    NatToStringOfDigitsValue(stamp);
    NatToStringOfDigitsValue(tie);
  }

  /** Every key ParseKey accepts as `owner`'s is the key MakeKey builds from the parts it returns. */
  lemma MakeParseKey(owner: string, key: string)
    requires ParseKey(owner, key).Some?
    ensures var p := ParseKey(owner, key).value;
            key == MakeKey(owner, p.timestamp, p.tieBreak, p.ext)
  {
    var rest := key[|owner| + 1..];
    assert key == (owner + "/") + rest;
    var (stamp, afterDash) := SplitFirst(rest, '-').value;
    SplitFirstJoins(rest, '-');
    var (tie, ext) := SplitFirst(afterDash, '.').value;
    SplitFirstJoins(afterDash, '.');
    assert ParseKey(owner, key).value == KeyParts(DigitsValue(stamp), DigitsValue(tie), ext);
    MakeKeyOfDigitRuns(owner, stamp, tie, ext);
  }

  /** Keys of one owner coincide only when timestamp, tie-breaker and extension all do. */
  lemma MakeKeyInjective(owner: string, now1: nat, n1: nat, ext1: string, now2: nat, n2: nat, ext2: string)
    requires MakeKey(owner, now1, n1, ext1) == MakeKey(owner, now2, n2, ext2)
    ensures now1 == now2 && n1 == n2 && ext1 == ext2
  {
    ParseMakeKey(owner, now1, n1, ext1);
    ParseMakeKey(owner, now2, n2, ext2);
  }

  /** Extension is the longest `.`-free suffix, so a name ending in `.` + ext has extension ext. */
  lemma ExtensionAfterDot(stem: string, ext: string)
    requires '.' !in ext
    ensures Extension(stem + "." + ext) == ext
  {
    var name := stem + "." + ext;
    var r := Extension(name);
    assert name[|stem|] == '.';
    assert r == name[|name| - |ext|..] == ext;
  }

  /** The extension of a derived key is the extension it was built with. */
  lemma KeyExtension(owner: string, now: nat, n: nat, ext: string)
    requires '.' !in ext
    ensures Extension(MakeKey(owner, now, n, ext)) == ext
  {
    ExtensionAfterDot(owner + "/" + NatToString(now) + "-" + NatToString(n), ext);
  }

  /** The extension is not sanitised: it may hold a `/`. */
  lemma ExtensionKeepsSlash()
    ensures Extension("a.b/c") == "b/c"
  {
  }
}
