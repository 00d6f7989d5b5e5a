# Credential-gated uploads: a Dafny model

This project models the request handling of a small Express server that
registers users, logs them in and names uploaded files in an S3 bucket
(`src/app.js`). Four handlers are modelled:

- **registerUser** (`Identity.RegisterSpec`, `Identity.UserTable.Register`).
  A missing email or password is answered with 400 before anything is hashed.
  Otherwise the password is hashed and a row is inserted into the `user` table.
  The answer is 201, or 500 when the insert fails.
- **loginUser** (`Identity.Login`). The answer is 400 for a missing field and
  500 for a failed query. An unknown email and a wrong password both get 401
  "Authentication failed". A matching password gets 200.
- **authenticateUserAndGenerateKey** (`ObjectKey.AuthenticateAndGenerateKey`),
  the key callback of the multer-S3 storage. It looks the uploader up and
  compares the password. It then passes the callback either an error or the
  key `<storedEmail>/<Date.now()>-<Math.floor(Math.random()*1000)>.<ext>`.
  Here `ext` is the text after the last `.` of the original file name.
- **authenticateUserAndUpload** (`Upload.UploadResponse`). The answer is 400
  "No file uploaded" when the request has no file, and 200 otherwise.

How the environment is represented:

- The `user` table is a `map<string, string>` from email to password hash.
  The class `Identity.UserTable` holds it, and registration updates it in place.
- bcrypt is two parameters. `hash: string -> string` stands for `bcrypt.hash`
  with the salt drawn for that call. `matches: (string, string) -> bool` stands
  for `bcrypt.compare`.
- A field of the request body is an `Option<string>`. `None` is an absent
  field (undefined or null). A field is "present" in the JavaScript sense when
  it is `Some(s)` with `s` non-empty.
- Database and driver failures are boolean parameters (`insertFault`,
  `queryFault`). The handlers' `catch` blocks treat every such error alike.
- `Date.now()` is the parameter `now: nat`. `Math.random()` is the parameter
  `random: real`, drawn from [0, 1).
- The multer callback `cb` is the one `KeyResult` the function returns. A
  function yields exactly one result on every path, so every path calls `cb`
  exactly once.

The key callback returns exactly `MakeKey(email, now, TieBreak(random), ext)`.
Key shape is proved through a partner parser, `ObjectKey.ParseKey`. It reads a
key back as one owner's key: the `<owner>/` prefix, the timestamp digits, the
tie-breaker digits and the extension. It accepts only digit runs written as
JavaScript writes numbers. The two are inverse in both directions:

- `ParseMakeKey` proves that parsing returns exactly the parts a key was built from.
- `MakeParseKey` proves that every key the parser accepts is the key built from
  the parts it returns.

Injectivity for a fixed owner and the extension round trip follow from these.

Three points where this model follows the code rather than what such a
gateway is normally expected to guarantee:

- The extension is not sanitised. It may contain `/` (`ExtensionKeepsSlash`).
- Keys are not guaranteed unique. The same timestamp and tie-breaker give the
  same key. `MakeKeyInjective` states only the converse: different parts give
  different keys.
- The key callback tells the two credential failures apart. An unknown email
  gets "User not found" (`KeyErr(UserNotFound)`), and a wrong password gets
  "Authentication failed" (`KeyErr(AuthenticationFailed)`). Unlike login, it
  therefore reveals which emails are registered.

## Model

| member | source | states |
|---|---|---|
| `Identity.RegisterSpec` | src/app.js:41-57 | 400 exactly when email or password is missing or empty; 500 exactly when the insert fails (email already present or a store fault); 201 otherwise, and then the table gains `email ↦ hash(password)`; on 400 and 500 the table is unchanged; bcrypt.hash is called, on the password, exactly when the answer is not 400 |
| `Identity.UserTable.Register` | src/app.js:41-57 | the in-place registration answers and leaves the table exactly as `RegisterSpec` of the old table says, and appends the password to the log of hash calls exactly when `RegisterSpec` hashes |
| `Identity.RejectionDoesNotHash` | src/app.js:44-46 | a registration missing a field answers 400 for any hash function, makes no hash call and leaves the table unchanged |
| `Identity.RegisterTwiceFails` | src/app.js:48-56 | once an email is registered, registering it again answers 500 and leaves the table unchanged (the new password is still hashed first) |
| `Identity.RegisterKeepsOtherRows` | src/app.js:50-51 | registration never alters another email's row |
| `Identity.Login` | src/app.js:60-89 | 400 exactly for a missing field, 500 exactly for a failed query, 401 "Authentication failed" exactly for an unknown email or a hash mismatch, 200 "Login successful" exactly when the password matches the stored hash; the table is only read |
| `Identity.UnknownEmailLooksLikeWrongPassword` | src/app.js:71-84 | an unknown email and a wrong password get the same status and message, so callers cannot tell them apart |
| `Identity.RegisterThenLogin` | src/app.js:49-81 | registering `(e, p)` and then logging in with `(e, p)` gives 201 then 200, whenever `matches(p, hash(p))` |
| `ObjectKey.AuthenticateAndGenerateKey` | src/app.js:114-138 | a key exactly when the user exists and the password matches; "User not found" exactly for an unknown email; "Authentication failed" exactly for a mismatch; a successful key is exactly `MakeKey(email, now, floor(random*1000), extension of the file name)`, starts with the user's email and `/`, and parses back to those three parts |
| `ObjectKey.MakeKey` | src/app.js:133 | the key template `<email>/<now>-<n>.<ext>`; every key it builds begins with the email followed by `/` |
| `ObjectKey.Extension` | src/app.js:132 | the result is a suffix of the name with no `.`, preceded by a `.` when shorter than the name, and it is the whole name exactly when the name has no `.` (so the empty name gives `""`) |
| `ObjectKey.ExtensionAfterDot` | src/app.js:132 | for `stem + "." + ext` with a `.`-free `ext`, the extension is `ext` |
| `ObjectKey.ExtensionKeepsSlash` | src/app.js:132 | the extension of `"a.b/c"` is `"b/c"`: path separators are not removed |
| `ObjectKey.TieBreak` | src/app.js:133 | `Math.floor(random * 1000)` lies in 0..999 and is the floor of `random * 1000` |
| `ObjectKey.ParseMakeKey` | src/app.js:133 | parsing a derived key as its owner's gives back the timestamp, the tie-breaker and the extension it was built from |
| `ObjectKey.MakeParseKey` | src/app.js:133 | every key the parser accepts as an owner's is the key built from the parts it returns, so the parser accepts exactly the keys of the template |
| `ObjectKey.MakeKeyInjective` | src/app.js:133 | two keys of one owner are equal only if their timestamps, tie-breakers and extensions are |
| `ObjectKey.KeyExtension` | src/app.js:132-133 | the extension of a derived key is the extension taken from the file name |
| `Decimal.NatToString` | src/app.js:133 | the interpolated number is a non-empty run of decimal digits with no leading zero, one digit exactly below 10 |
| `Decimal.DigitsValueOfNatToString` | src/app.js:133 | reading the rendered digits back gives the number |
| `Decimal.NatToStringOfDigitsValue` | src/app.js:133 | every non-empty digit run with no leading zero (other than "0" itself) is the rendering of the number it denotes |
| `Decimal.NatToStringInjective` | src/app.js:133 | distinct numbers render as distinct strings |
| `Upload.UploadResponse` | src/app.js:106-112 | 400 "No file uploaded" exactly when no file is attached, 200 "File uploaded to S3 bucket successfully" exactly when one is |

## Left out

- Express setup, body parsing, the listening socket, dotenv and the MySQL pool
  (src/app.js:1-33) are plumbing around the handlers.
- The multer-S3 storage configuration (bucket, ACL, metadata, src/app.js:92-104)
  is not modelled. Only the key callback's logic is. The S3 upload itself is not
  modelled either.
- Route wiring is not modelled. `UploadResponse` and `AuthenticateAndGenerateKey`
  are independent functions, and no claim is made that a request passes through
  both.
- src/aws.js is not part of this model. It is a thin wrapper over the AWS SDK
  plus logging.
- bcrypt internals, the cost factor of 10 and salting are abstracted by the
  `hash` and `matches` parameters.
- SQL semantics are abstracted: collation, and what the table's schema enforces.
  The table holds one row per email, so a duplicate insert is modelled as a
  failed insert (500). The row's email is the email it was found under.
- Request fields that are JSON values other than strings (numbers, booleans,
  objects) are not modelled.
- In the key callback, an absent email makes the query throw. A password absent
  for an existing user makes `bcrypt.compare` throw. Both become `KeyErr(Thrown)`,
  as the `catch` block hands them to `cb`. The thrown error's message is not
  modelled.
- AuthenticateAndGenerateKey: if `cb(null, key)` itself threw, the `catch` block
  would call `cb` a second time. The model returns a single result and does not
  capture that double call.
- Decimal.NatToString: JavaScript writes integers of 10^21 and above in exponent
  notation. The model always writes plain digits; `Date.now()` is far below that
  bound and the tie-breaker is below 1000.
- Math.random() returns a double. The model takes a real number in [0, 1).
- All console logging is left out.
