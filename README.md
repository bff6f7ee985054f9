# A verified model of the Digital Marketplace utilities

This project models the core of `dto-digitalmarketplace-utils`, the Python 2 helper library that the Australian Digital Marketplace applications share, and proves what that core promises. The library's own logic is a set of small in-memory rule engines and text transforms around Flask glue:

- the answer validator `Validate` (`dmutils/validation.py`): for each posted answer it checks first that an answer was given, then runs the question's declared rules in order up to the first one that fails; it fills `errors`, `clean_data` and `dirty_data` as it goes, and moves the read position of uploaded files;
- the normalisers for Australian Company Numbers and Australian Business Numbers, with their weighted check-digit sums, and the money pre-processing (`dmutils/data_tools.py`);
- the content manifest (`dmutils/content_loader.py`): sections of questions, question numbering, dependency filtering, next-section navigation, form-data extraction, assurance unpacking, error messages and change detection;
- document checks and storage paths (`dmutils/documents.py`), and upload names that never replace a stored object (`dmutils/file.py`);
- turning a posted form into nested data and checking required fields (`react/response.py`);
- the small helpers: value presenters, `smartjoin`, the lot table lookups, Slack escaping and log-record renaming, token salt framing and the Fernet timestamp, user roles, the terms-of-use redirect, the HTTPS redirect and HSTS header, and API-error fallbacks.

Every module follows one source file. Code that computes a value is written as functions with lemmas. Code that changes objects in place is written as classes with `modifies` clauses:
- `Validate` and its file handles;
- the numbered `ContentQuestion` objects;
- `ContentSection` and `ContentManifest`;
- the session of the terms-of-use check;
- the response headers;
- the log formatter.

Each such method is proved against a function that states what it computes. Python exceptions are values of `Results.Result`, so each error path is modelled next to its happy path.

Python 2 semantics are written out where the results depend on them:
- `unicode.strip()` and `unicode.split()` use the whitespace of Python 2.7's Unicode 5.2 database. The `\s` in the regular expressions of `data_tools.py` matches ASCII whitespace only.
- `unicode.lower()` maps each character by its own Unicode 5.2 lower-case mapping, so `\u0130` becomes `i`.
- `int()` and `float()` of a `unicode` text first encode it. Whitespace becomes a space, and a decimal digit of any script becomes its ASCII digit. Other characters from U+0001 to U+00FF stay as they are, and any other character raises `UnicodeEncodeError`. The message of `int()` shows the encoded bytes as `repr` writes them.
- `str.format` with a byte-string template raises `UnicodeEncodeError` for a non-ASCII `unicode` argument. `hasattr` raises it too, for a non-ASCII name.
- Iterating a dictionary gives its keys.

The following are parameters of the operations that use them:
- Fernet encryption and decryption;
- JSON, base64 and `urljoin`;
- `secure_filename`;
- `convert_to_boolean`, `convert_to_number` and `format_price`;
- the rendering of lists and dictionaries by `str()`;
- the `Decimal` constructor;
- the clock-derived file suffix;
- the uploader.

The objects already stored under an upload path are a finite set of names. Where the source iterates a dictionary, the model takes the pairs as a sequence in iteration order. The exception is dictionary content read by content questions: it is iterated in a fixed key order, as noted under "## Left out".

## Model

| member | source | states |
|---|---|---|
| ApiErrors.ApiError.StatusCode | dmutils/apiclient/errors.py:17-22 | the response's status code; 503 when the error has no response |
| ApiErrors.MessageFallbacks | dmutils/apiclient/errors.py:10-15 | the message is the `error` entry of a dictionary body that has one; otherwise the given message when truthy, else "Request failed"; it raises exactly when `response.json()` raises something other than TypeError, ValueError, AttributeError or KeyError |
| ApiErrors.SubclassesAlike | dmutils/apiclient/errors.py:25-30 | `HTTPError` and `InvalidResponse` report the same message and status code as `APIError` |
| Bytes.Utf8Char | dmutils/email.py:31-33 | the UTF-8 encoding of one code point takes one to four bytes; it is one byte, the code itself, exactly for ASCII, and every byte of a longer one is at least 0x80 |
| Bytes.Utf8Append | dmutils/email.py:31-33 | `encode('utf-8')` of a concatenation is the concatenation of the encodings |
| Bytes.Utf8Nul | dmutils/email.py:108-113 | the encoding holds a zero byte exactly when the text holds NUL, so a salt without NUL frames its token unambiguously |
| Bytes.Utf8Ascii | dmutils/email.py:31-33 | ASCII text encodes to its own character codes, one byte each |
| Bytes.Utf8NotAscii | dmutils/email.py:31-33 | text with a character outside ASCII encodes to a byte string that is not ASCII |
| Bytes.DecodeFirst | dmutils/email.py:123 | the first well-formed UTF-8 sequence of a byte string is the encoding of the character it decodes to |
| Bytes.DecodeFirstOfChar | dmutils/email.py:123 | the encoding of a character, followed by anything, decodes first to that character |
| Bytes.Utf8Decode | dmutils/email.py:123 | `decode('utf-8')` gives text whose encoding is the byte string, and raises only UnicodeDecodeError |
| Bytes.Utf8DecodeEncode | dmutils/email.py:31-33 | decoding the encoding of any text gives that text back |
| Bytes.Utf8Injective | dmutils/email.py:121 | two texts with the same encoding are equal, so comparing encoded salts compares the salts |
| Bytes.SplitFirst | dmutils/email.py:120 | `split(b'\0', 1)`: the parts rejoin to the byte string around the first separator, the first part has none, and there is no split exactly when the separator is absent |
| Bytes.SplitFirstJoin | dmutils/email.py:108-120 | splitting `a ‖ sep ‖ b` at its first separator gives back `a` and `b` when `a` has no separator |
| Bytes.BigEndian | dmutils/email.py:142 | `struct.unpack('>Q', …)` of n bytes is below 256^n |
| Bytes.ToBigEndian | dmutils/email.py:142 | the big-endian writing of a number has the requested width |
| Bytes.BigEndianRoundTrip | dmutils/email.py:142 | a number below 256^width, written big-endian and read back, is itself |
| Bytes.ToBigEndianRoundTrip | dmutils/email.py:142 | bytes read as big-endian and written back at their width are themselves |
| Email.ToBytesMeaning | dmutils/email.py:31-35 | `to_bytes` turns text into bytes that decode back to it and returns other objects unchanged; a byte string comes back unchanged when ASCII and raises UnicodeDecodeError otherwise (Python 2 `str.encode`) |
| Email.ToBytesTwice | dmutils/email.py:31-35 | applying `to_bytes` twice equals applying it once exactly when the text is ASCII |
| Email.DecodeToken | dmutils/email.py:117-123 | a decoded token was decrypted and its clear text splits at the first NUL into the encoded salt and the JSON; a salt part that differs raises InvalidToken |
| Email.DecodeGeneratedToken | dmutils/email.py:99-123 | with a salt free of NUL, and with Fernet and JSON each undone by its inverse, `decode_token(generate_token(data))` is `data` |
| Email.DecodeWithOtherSalt | dmutils/email.py:99-123 | a token made under one salt raises InvalidToken when decoded under any other |
| Email.ParseFernetTimestamp | dmutils/email.py:132-146 | a timestamp read from a token lies before the year 10000 (later ones overflow `datetime`) |
| Email.FernetTimestampOfLayout | dmutils/email.py:132-146 | a token that is a version byte, a 64-bit big-endian count of seconds and the rest gives back that count |
| Email.FernetTimestampShort | dmutils/email.py:142-146 | fewer than nine decoded bytes raise ValueError |
| Email.PasswordResetOutcome | dmutils/email.py:149-171 | a token that fails to decrypt gives `{'error': 'token_invalid'}`; a token made before the password last changed gives the same; otherwise the decoded data; other exceptions escape |
| Email.RequiredFields | dmutils/email.py:175 | a supplier's invitation needs `email_address`, `supplier_code` and `supplier_name`, anyone else's only `email_address` |
| Email.AllIn | dmutils/email.py:183 | `all(field in token …)` is true exactly when every field is found in the token |
| Email.DecodeInvitationToken | dmutils/email.py:174-194 | the token is returned exactly when it decoded and holds every required field; every exception gives None |
| Email.InvitationFields | dmutils/email.py:174-186 | for a dictionary token: a supplier's needs the three supplier keys, anyone else's only `email_address` |
| FileStore.AllowedFile | dmutils/file.py:10-11 | a file name without a `.` raises IndexError |
| FileStore.AllowedFileOfName | dmutils/file.py:10-11 | `name.ext` is accepted exactly when `ext`, lower-cased by the Unicode 5.2 mappings that `unicode.lower()` uses, is one of the allowed extensions, in whatever case it was written |
| FileStore.AllowedFileDottedCapitalI | dmutils/file.py:10-11 | with `tiff` allowed, `x.t\u0130ff` is accepted, because `\u0130` lower-cases to `i` |
| FileStore.NumberedGroups | dmutils/file.py:25-28 | the groups found are a match of `(.+?)_(\d{1,})$`: a non-empty prefix without a newline, `_`, digits, and the end or a final newline |
| FileStore.NumberedGroupsComplete | dmutils/file.py:25-28 | every match of the pattern is the one found, so the groups are determined by the name |
| FileStore.Bump | dmutils/file.py:22-29 | one renaming step raises IndexError exactly when the name has no `.` |
| FileStore.BumpPlain | dmutils/file.py:22-29 | `base.ext` with no trailing number becomes `base_2.ext` |
| FileStore.BumpNumbered | dmutils/file.py:22-29 | `base_N.ext` becomes `base_{N+1}.ext` |
| FileStore.BumpProgress | dmutils/file.py:22-30 | every renaming step keeps the extension and moves the name strictly forward, so the recursion ends |
| FileStore.UniqueFilename | dmutils/file.py:14-32 | a name not stored is returned unchanged; any name returned is not stored; it raises IndexError exactly when the name is stored and has no `.`; the extension is kept |
| FileStore.UniqueAfterOne | dmutils/file.py:14-32 | with only `base.ext` stored, the upload is named `base_2.ext` |
| FileStore.Folder.constructor | dmutils/file.py:14-17 | the folder starts with the names given |
| FileStore.Folder.UploadFileObj | dmutils/file.py:47-62 | the upload is stored under the name computed from the old contents, and the folder gains that name and nothing else; a refused upload changes nothing |
| FileStore.Folder.UploadFileFromRequest | dmutils/file.py:35-44 | the outcome is the one the request determines, and only an accepted upload adds its name |
| FileStore.UploadName | dmutils/file.py:47-58 | an accepted upload is named by something not yet stored |
| FileStore.UploadNameOutcome | dmutils/file.py:47-49 | an upload with a refused extension raises, whatever is stored |
| FileStore.RequestUploadName | dmutils/file.py:35-44 | no files raises `No files in request`; a missing or empty key raises `Invalid request.files key`; otherwise it is the upload of that file |
| Filters.SmartJoin | dmutils/filters.py:11-18 | no items give the empty text and one item gives itself |
| Filters.SmartJoinIsEnglishList | dmutils/filters.py:11-18 | `smartjoin` equals, on every list, the English list written item by item: commas between the items and "and" before the last |
| Filters.SmartJoinTwo | dmutils/filters.py:13-14 | two items are joined by " and " alone |
| ForceHttps.InstallsHooksCases | dmutils/force_https.py:25-28 | the hooks are installed for `https` in any case and not for `http` |
| ForceHttps.RedirectToSsl | dmutils/force_https.py:31-39 | a request is redirected exactly when its URL starts with `http://` |
| ForceHttps.RedirectTarget | dmutils/force_https.py:34-39 | the redirect is a 301 to `https://` followed by the rest of the URL |
| ForceHttps.HttpsNotRedirected | dmutils/force_https.py:31-39 | an `https://` URL is let through |
| ForceHttps.Response.constructor | dmutils/force_https.py:42-47 | a response holds the headers given |
| ForceHttps.SetHstsHeader | dmutils/force_https.py:42-47 | the same response is returned, and its headers become those `WithHsts` gives for the old headers |
| ForceHttps.WithHstsMeaning | dmutils/force_https.py:42-47 | an HTTPS response ends up with the HSTS header; an existing one, or a plain-HTTP request, leaves the headers as they were; the old headers are kept in place |
| Formats.Matching | dmutils/formats.py:64-75 | the list comprehension keeps exactly the table entries whose `lot` is the key |
| Formats.LookupsReadFirstMatch | dmutils/formats.py:64-75 | `lot_to_lot_case` and `get_label_for_lot_param` read the first entry whose `lot` is the key, and give None without one |
| Formats.LookupFound | dmutils/formats.py:14-75 | a lot is found exactly for `saas`, `paas`, `iaas` and `scs`, matched exactly |
| Formats.LookupEachLot | dmutils/formats.py:14-75 | every entry of `LOTS` is found by its own `lot`, with its own case and label |
| Users.UserHasRoleMeaning | dmutils/user.py:1-5 | `user_has_role` is true exactly for a record whose `users` entry is a dictionary with that `role`; a missing key or a non-dictionary gives False |
| Users.User.GetId | dmutils/user.py:29-33 | `unicode(id)` of a text id is that text and of an integer its decimal digits |
| Users.SerializeFields | dmutils/user.py:35-42 | `serialize` gives exactly the five camel-case keys, each holding its field |
| Users.SerializeFromJson | dmutils/user.py:35-58 | a well-formed API record is read without error, and serializing the user gives back its fields, with None for the supplier of a user without one |
| Users.FromJsonMissing | dmutils/user.py:44-58 | a record missing `id`, `emailAddress` or `locked` raises |
| TermsOfUse.Session.constructor | dmutils/terms_of_use.py:30-31 | a session holds the entries given |
| TermsOfUse.Session.NeedsAcceptanceUpdate | dmutils/terms_of_use.py:30-31 | a flag never set reads as False |
| TermsOfUse.Session.SetSessionFlag | dmutils/terms_of_use.py:26-31 | only the flag changes, and `needs_acceptance_update` then reports the value set |
| TermsOfUse.RedirectWhen | dmutils/terms_of_use.py:10-23 | a request goes to a 302 redirect to `/terms-updated` exactly when the flag is truthy and the path is none of the three allowed pages and not under the static path |
| TermsOfUse.NoFlagNoRedirect | dmutils/terms_of_use.py:20-31 | a session that never had the flag set redirects nowhere |
| ValidationRules.Index | dmutils/validation.py:122-152 | `question[k]` of a list is its item, and an index past the end raises IndexError |
| ValidationRules.Unpack | dmutils/validation.py:155 | unpacking into `want` names succeeds exactly when there are that many values, Python 2's ValueError otherwise |
| ValidationRules.FileHasBeenUploaded | dmutils/validation.py:81-84 | true exactly for a file with a byte left to read at its position; the file is put back at the start and nothing else changes; a non-file raises AttributeError |
| ValidationRules.SavePath | dmutils/validation.py:86-93 | a service that is not a dictionary raises TypeError; with the service's ids and an upload, the path raises KeyError exactly for a question id without a file-name suffix |
| ValidationRules.FileCanBeSaved | dmutils/validation.py:86-107 | passes exactly when the upload is saved, and then stores the URL joined to the path as the clean answer; fails with nothing changed exactly when the uploader raises S3ResponseError; otherwise nothing changes |
| ValidationRules.FileIsLessThan5mb | dmutils/validation.py:109-114 | true exactly when fewer than 5400000 bytes are left to read; the file is put back at the start |
| ValidationRules.FileIsOpenDocumentFormat | dmutils/validation.py:116-120 | true exactly when the lower-cased extension is one of `.pdf .pda .odt .ods .odp`; only a non-file raises; nothing changes |
| ValidationRules.NoMinPriceSpecified | dmutils/validation.py:122-125 | records `question[0]` as the dirty `priceMin` and nothing else; raises, changing nothing, when there is no first element |
| ValidationRules.MinPriceNotANumber | dmutils/validation.py:127-132 | records `question[0]` as the dirty `priceMin` and nothing else; raises, changing nothing, without a first element |
| ValidationRules.MaxPriceNotANumber | dmutils/validation.py:134-141 | records `question[1]` as the dirty `priceMax` and nothing else; raises, changing nothing, without a second element |
| ValidationRules.FirstTwo | dmutils/validation.py:144 | `question[0:2]` unpacks only into two values |
| ValidationRules.NoUnitSpecified | dmutils/validation.py:149-152 | records `question[2]` as the dirty `priceUnit` and nothing else; raises, changing nothing, without a third element |
| ValidationRules.ComposePrice | dmutils/validation.py:156-172 | the rule never returns False, and it leaves `dirty_data` and the files alone |
| ValidationRules.PriceEntriesLookup | dmutils/validation.py:157-171 | the five price entries written in order can each be read back |
| ValidationRules.PriceStringCanBeComposed | dmutils/validation.py:154-172 | the rule never returns False, and it leaves `dirty_data` and the files alone |
| ValidationRules.Under100Characters | dmutils/validation.py:174-175 | true exactly when the length is at most 100; a file raises; nothing changes |
| ValidationRules.Under50Words | dmutils/validation.py:177-178 | true exactly for text of at most 50 whitespace-separated words; a non-text raises; nothing changes |
| ValidationRules.ItemsUnder10WordsEach | dmutils/validation.py:180-185 | for a list, true exactly when every item has at most ten words; only a file raises; nothing changes |
| ValidationRules.NonBlank | dmutils/validation.py:188-190 | the items kept are none of them blank and no more than there were |
| ValidationRules.Under10Items | dmutils/validation.py:187-195 | for a list, true exactly when at most ten items are not blank, and then those items are the clean answer; a failure changes nothing |
| ValidationRules.Lookup | dmutils/validation.py:62-65 | a name found is in the table with its rule; a name not found is in no entry |
| ValidationRules.LookupAscii | dmutils/validation.py:62-65 | a name that finds a rule in a table of ASCII names is itself ASCII |
| ValidationRules.RuleNamesAscii | dmutils/validation.py:62-65 | every rule name of `Validate` is ASCII, so `hasattr` can look each one up |
| ValidationRules.Test | dmutils/validation.py:62-65 | a name outside ASCII raises UnicodeEncodeError, which `hasattr` raises, and changes nothing; a name that is no rule raises and changes nothing; an ASCII name that is no attribute at all raises `ValueError("Validation rule <name> not found")` |
| ValidationRules.RunStep | dmutils/validation.py:31-34 | one answer of the `validate` loop: a raise ends it, otherwise a truthy message is recorded under the question id and the loop goes on from the new state |
| ValidationRules.PriceFloat | dmutils/validation.py:228-237 | every price the pattern `^[0-9]+(\.\d{1,5})?$` accepts is read by `float` as its decimal value |
| ValidationRules.PresenceChecks | dmutils/validation.py:122-152 | on a posted list, the minimum and unit checks record their field and test it for blankness |
| ValidationRules.MinPriceCheck | dmutils/validation.py:127-132 | `min_price_not_a_number` comes down to the pattern alone |
| ValidationRules.MaxPriceCheck | dmutils/validation.py:134-141 | `max_price_not_a_number` passes exactly a blank maximum or one the pattern accepts |
| ValidationRules.MinPriceRefusals | dmutils/validation.py:127-132 | a signed, exponent or six-decimal minimum fails, although `float` reads the first two |
| ValidationRules.EmptyMaxPasses | dmutils/validation.py:134-146 | a blank maximum passes both maximum checks |
| ValidationRules.MaxOverMin | dmutils/validation.py:143-147 | for two accepted prices the rule passes exactly when the maximum is greater, as decimals |
| ValidationRules.CompareFloats | dmutils/validation.py:143-147 | for a non-blank maximum, the rule compares the two floats read |
| ValidationRules.PriceComposed | dmutils/validation.py:154-172 | four parts whose numbers can be read: the rule passes and stores the minimum and maximum as numbers (None for a blank maximum), the unit, the interval (`""` when blank) and the price text |
| ValidationRules.ComposePriceMaxFails | dmutils/validation.py:157-160 | a maximum that cannot be read raises after the minimum is already stored |
| ValidationRules.WholePriceComposed | dmutils/validation.py:154-172 | a whole minimum with no maximum and no interval gives the text `£min per unit` and an integer minimum |
| ValidationRules.PriceNotComposed | dmutils/validation.py:155-157 | a minimum that cannot be read raises with nothing stored |
| ValidationRules.NonBlankKeeps | dmutils/validation.py:188-190 | every item that is not blank is kept |
| ValidationRules.NonBlankIdempotent | dmutils/validation.py:188-190 | removing the blank items twice removes nothing more |
| ValidationRules.NonBlankAppend | dmutils/validation.py:188-190 | the filter works item by item: it distributes over concatenation |
| ValidationRules.RuleLoopAppend | dmutils/validation.py:54-57 | rules after one that fails or raises are not run; after a prefix that passes, the rest runs from the state it leaves |
| ValidationRules.RuleLoopMessage | dmutils/validation.py:54-57 | a message returned is the `message` of one of the declared rules, and the raw answer is then in `dirty_data` |
| ValidationRules.UnknownRule | dmutils/validation.py:54-65 | a declared rule whose name is no attribute raises `ValueError("Validation rule <name> not found")` before anything changes, or UnicodeEncodeError when the name is not ASCII |
| ValidationRules.OptionalBlankText | dmutils/validation.py:43-47 | an optional text question left blank has no error, and the text is stored as posted |
| ValidationRules.OptionalEmptyFile | dmutils/validation.py:43-47 | an optional upload left empty has no error and stores nothing; the file is put back at the start |
| ValidationRules.PreviouslyUploaded | dmutils/validation.py:48-52 | an empty upload for a document the service already has is no error and stores nothing |
| ValidationRules.AllRulesPass | dmutils/validation.py:54-60 | when every rule passes there is no error and the question has a clean answer: the one a rule stored, or else the raw answer |
| ValidationRules.TrueIsStored | dmutils/validation.py:74-79 | `"True"` with no rules is stored as the boolean True |
| ValidationRules.ListIsStoredWithoutBlanks | dmutils/validation.py:187-195 | a non-blank list checked by `under_10_items` alone is stored without its blank items |
| ValidationRules.TestAnswerRequired | dmutils/validation.py:62-65 | `test` by the name `answer_required` runs that rule |
| ValidationRules.LookupUnder10Items | dmutils/validation.py:62-65 | the name `under_10_items` finds that rule |
| ValidationRules.LookupFind | dmutils/validation.py:62-65 | the first entry with a name is the one found |
| ValidationRules.RunUnder10Items | dmutils/validation.py:54-57 | the single rule `under_10_items` passes and stores the list without blanks |
| ValidationRules.TestUnder10Items | dmutils/validation.py:62-65 | `test` by the name `under_10_items` runs that rule |
| ValidationRules.RunErrors | dmutils/validation.py:31-34 | the loop records errors only under posted ids and only truthy messages |
| ValidationRules.ValidateErrors | dmutils/validation.py:27-37 | every error `validate` records is a truthy message under a posted question id |
| Validation.Posted | dmutils/validation.py:40 | an answer found is posted under that id, and no answer is found only for an id not posted |
| Validation.PostedAt | dmutils/validation.py:31-40 | with distinct keys every posted pair is found by its key |
| Validation.Validate.constructor | dmutils/validation.py:17-25 | the collaborators are stored, `clean_data` and `dirty_data` start empty and `errors` is None |
| Validation.Validate.FileHasBeenUploaded | dmutils/validation.py:81-84 | the outcome and the new files, clean and dirty data are those `ValidationRules.FileHasBeenUploaded` gives for the old state |
| Validation.Validate.FileIsLessThan5mb | dmutils/validation.py:109-114 | as `ValidationRules.FileIsLessThan5mb` on the old state |
| Validation.Validate.FileIsOpenDocumentFormat | dmutils/validation.py:116-120 | as `ValidationRules.FileIsOpenDocumentFormat`, changing nothing |
| Validation.Validate.FileCanBeSaved | dmutils/validation.py:86-107 | as `ValidationRules.FileCanBeSaved` on the old state |
| Validation.Validate.AnswerRequired | dmutils/validation.py:67-79 | as `ValidationRules.AnswerRequired` on the old state: a list needs a non-blank concatenation, an upload a byte, text a non-blank value, with `"True"`/`"False"` stored as booleans |
| Validation.Validate.NoMinPriceSpecified | dmutils/validation.py:122-125 | as `ValidationRules.NoMinPriceSpecified` on the old state |
| Validation.Validate.MinPriceNotANumber | dmutils/validation.py:127-132 | as `ValidationRules.MinPriceNotANumber` on the old state |
| Validation.Validate.MaxPriceNotANumber | dmutils/validation.py:134-141 | as `ValidationRules.MaxPriceNotANumber` on the old state |
| Validation.Validate.MaxLessThanMin | dmutils/validation.py:143-147 | as `ValidationRules.MaxLessThanMin`, changing nothing |
| Validation.Validate.NoUnitSpecified | dmutils/validation.py:149-152 | as `ValidationRules.NoUnitSpecified` on the old state |
| Validation.Validate.PriceStringCanBeComposed | dmutils/validation.py:154-172 | as `ValidationRules.PriceStringCanBeComposed` on the old state |
| Validation.Validate.ComposePrice | dmutils/validation.py:156-172 | the price text built step by step and the entries written in order are those of `ValidationRules.ComposePrice`, also when the maximum cannot be read |
| Validation.Validate.Under100Characters | dmutils/validation.py:174-175 | as `ValidationRules.Under100Characters`, changing nothing |
| Validation.Validate.Under50Words | dmutils/validation.py:177-178 | as `ValidationRules.Under50Words`, changing nothing |
| Validation.Validate.ItemsUnder10WordsEach | dmutils/validation.py:180-185 | the loop's flag is set exactly when some item has more than ten words: as `ValidationRules.ItemsUnder10WordsEach` |
| Validation.HasLongItem | dmutils/validation.py:181-185 | the loop sets its flag exactly when some item has more than ten words |
| Validation.Validate.Under10Items | dmutils/validation.py:187-195 | as `ValidationRules.Under10Items` on the old state |
| Validation.Validate.Validate | dmutils/validation.py:27-37 | the errors returned and the state left are those of `ValidationRules.ValidateAll` from the starting file positions; `errors` is set only when every question could be checked |
| Validation.Validate.QuestionErrors | dmutils/validation.py:39-60 | an id not posted raises KeyError and changes nothing; otherwise as `ValidationRules.QuestionErrors` on the old state |
| Validation.Validate.CheckRules | dmutils/validation.py:54-60 | the rule loop and the clean answer stored after it are those of `ValidationRules.CheckRules` |
| Validation.Validate.CheckRule | dmutils/validation.py:55-57 | one declared rule as `ValidationRules.RuleStep` |
| Validation.Validate.Test | dmutils/validation.py:62-65 | as `ValidationRules.Test` on the old state |
| Validation.Validate.Apply | dmutils/validation.py:65 | the rule dispatched by name does what `ValidationRules.Apply` states |
| Documents.FileHandle.constructor | dmutils/documents.py:58-68 | an uploaded file starts at position 0 with its name and bytes |
| Documents.FileHandle.Read | dmutils/documents.py:84-95 | `read(n)` gives the next `min(n, bytes left)` bytes from the position and moves past them |
| Documents.FileHandle.Seek | dmutils/documents.py:84-95 | `seek(offset)` sets the position |
| Documents.FileIsNotEmpty | dmutils/documents.py:84-87 | true exactly when a byte is left to read; the file is back at the start |
| Documents.FileIsLessThan5mb | dmutils/documents.py:90-95 | true exactly when fewer than 5400000 bytes are left; the file is back at the start |
| Documents.NamedComponentMeaning | dmutils/documents.py:128-130 | the last path component is named exactly when it holds a character other than `.` |
| Documents.SplitExtIsAtLastDot | dmutils/documents.py:128-130 | the character-by-character `splitext` equals Python's: the last `.` after the last `/` starts the extension, unless only dots precede it in that component |
| Documents.SplitExtShape | dmutils/documents.py:128-130 | root and extension rejoin to the path, and an extension is a `.` followed by neither `.` nor `/` |
| Documents.SplitExtJoin | dmutils/documents.py:128-130 | a well-formed extension appended to a named path is split off again |
| Documents.ExtensionShape | dmutils/documents.py:128-130 | `get_extension` gives nothing or a dot followed by neither `.` nor `/` |
| Documents.LowerIdempotent | dmutils/documents.py:130 | lower-casing twice is lower-casing once |
| Documents.GetExtensionOfName | dmutils/documents.py:128-130 | `get_extension` of `name.ext` is `.ext` lower-cased by the Unicode 5.2 mappings, so the format check ignores case |
| Documents.GetExtensionDottedCapitalI | dmutils/documents.py:128-130 | the extension of `doc.\u0130` is `.i` |
| Documents.GenerateFileName | dmutils/documents.py:104-121 | a field without a kind raises KeyError(field); the call raises exactly in that case, or when an id cannot be rendered, or when the suffix or the Unicode-lower-cased extension is outside ASCII |
| Documents.KindsArePlain | dmutils/documents.py:108-113 | the four kinds of document hold no `.` and no `/` |
| Documents.GeneratedPath | dmutils/documents.py:115-121 | the path is `documents/{supplier}/{service}-{kind}-{suffix}{extension}` |
| Documents.NamedAfterSlash | dmutils/documents.py:115 | the component after the last `/` of a generated path is named |
| Documents.NoExtensionAfterSlash | dmutils/documents.py:115 | a path whose last component has no `.` has no extension |
| Documents.GeneratedExtension | dmutils/documents.py:104-130 | the stored document keeps the extension of the uploaded file when the service id and suffix hold no `.` or `/` |
| Documents.Positions | dmutils/documents.py:19-39 | one read position per attached file, in order |
| Documents.FileHandles | dmutils/documents.py:19-39 | every attached file is among the files touched |
| Documents.CheckedErrorsMeaning | dmutils/documents.py:38-45 | a field is recorded exactly when its file fails the check, with that check's error, and every recorded field is an attached file's |
| Documents.DocumentErrorsMeaning | dmutils/documents.py:25-45 | a file has an error exactly when it fails a check, the format being checked before the size, and every error is for an attached file |
| Documents.DocumentErrorsStep | dmutils/documents.py:39-43 | one more file adds its error, if it has one |
| Documents.CheckDocument | dmutils/documents.py:40-43 | the error is the file's first failing check; a file refused for its format is not read, any other is put back at the start |
| Documents.ValidateDocuments | dmutils/documents.py:25-45 | the errors are exactly those of the files at their starting positions; a file refused for its format keeps its position, every other one is back at the start |
| Documents.CheckEntry | dmutils/documents.py:39-43 | one turn of the loop adds only the current field, if it fails |
| Documents.FormatRefusedMeaning | dmutils/documents.py:40-41 | a file is refused for its format exactly when its extension is not an OpenDocument or PDF one |
| Documents.NonEmptyFilesMeaning | dmutils/documents.py:12-22 | exactly the entries whose file has a byte left are kept, under their own keys, and nothing else |
| Documents.NonEmptyFilesStep | dmutils/documents.py:19-22 | one more entry is kept when its file is not empty |
| Documents.FilterEmptyFiles | dmutils/documents.py:12-22 | the kept entries are those of the non-empty files at their starting positions, and every file is back at the start |
| Documents.KeepEntry | dmutils/documents.py:20-21 | one turn keeps the entry when its file is not empty and rewinds it |
| Documents.UploadDocument | dmutils/documents.py:48-81 | the result is False or a URL |
| Documents.UploadDocumentOutcome | dmutils/documents.py:64-81 | a saved document gives the join of the base URL with its path, an S3ResponseError gives False, and any other error escapes |
| DataTools.RemoveSeparators | dmutils/data_tools.py:22 | removing `(\s\|-)` never lengthens the text |
| DataTools.RemoveSeparatorsMembers | dmutils/data_tools.py:22 | what is left is exactly the characters of the input that are neither ASCII whitespace nor `-` |
| DataTools.RemoveSeparatorsAppend | dmutils/data_tools.py:22 | the removal works character by character: it distributes over concatenation |
| DataTools.RemoveSeparatorsOfClean | dmutils/data_tools.py:22 | text without separators passes through unchanged |
| DataTools.RemoveSeparatorsOfDigits | dmutils/data_tools.py:22 | digits pass through unchanged |
| DataTools.RemoveSeparatorsOfDecimal | dmutils/data_tools.py:22 | Unicode decimal digits pass through unchanged |
| DataTools.IntOfChars | dmutils/data_tools.py:30 | `map(int, s)` succeeds exactly when every character is a decimal digit of some script, giving each one's value; otherwise it raises what `int` raises for the first other character |
| DataTools.DigitsAreDecimal | dmutils/data_tools.py:24-30 | the ASCII digits the pattern checks are decimal digits for `int` |
| DataTools.LeadingDigitValues | dmutils/data_tools.py:24-30 | `int` of a leading ASCII digit is its digit value |
| DataTools.AcnWeightedSum | dmutils/data_tools.py:29-32 | the weighted sum is a multiple of 10 exactly when the ninth digit is the ASIC check digit of the first eight |
| DataTools.AcnGroupsShape | dmutils/data_tools.py:35 | the canonical form is `DDD DDD DDD` and, without its spaces, is the first nine digits |
| DataTools.AcnAccepted | dmutils/data_tools.py:12-36 | an ACN is accepted exactly when, with separators removed, it is decimal digits that begin with nine ASCII digits whose ninth is the check digit; the result is canonical and holds those nine digits |
| DataTools.AcnRejected | dmutils/data_tools.py:24-33 | for ASCII input, `Invalid ACN: …` is raised exactly without nine leading digits, and `Checksum failure for ACN: …` exactly for a failed check digit; after nine leading digits, a later character that is no decimal digit raises what `int` raises for it, which is ValueError exactly when that character can be encoded; UnicodeEncodeError is raised exactly when a message would carry non-ASCII text or `int` cannot encode that character |
| DataTools.AcnTrailingDecimalDigit | dmutils/data_tools.py:24-35 | a decimal digit of any script after a nine-digit ACN changes nothing: it is accepted as the ACN is, to the same result |
| DataTools.AcnOfDecimal | dmutils/data_tools.py:24-36 | on decimal digits the outcome comes down to the check digit |
| DataTools.AcnIdempotent | dmutils/data_tools.py:12-36 | normalising a normalised ACN gives it back unchanged |
| DataTools.AcnPrefixDetermines | dmutils/data_tools.py:29-35 | the checksum and the grouping read only the first nine characters |
| DataTools.DecrementFirst | dmutils/data_tools.py:58 | `digits[0] -= 1` lowers the first value by one and keeps the rest |
| DataTools.AbnWeightedSum | dmutils/data_tools.py:56-60 | the weighted sum is a multiple of 89 exactly when the ABR rule holds |
| DataTools.AbnGroupsShape | dmutils/data_tools.py:63 | the canonical form is `DD DDD DDD DDD` and, without its spaces, is the first eleven digits |
| DataTools.AbnAccepted | dmutils/data_tools.py:39-64 | an ABN is accepted exactly when, with separators removed, it is decimal digits beginning with a non-zero digit and ten more ASCII digits that satisfy the ABR rule; the result is canonical and holds those digits |
| DataTools.AbnRejected | dmutils/data_tools.py:51-61 | for ASCII input, `Invalid ABN: …` is raised exactly without the leading pattern, and `Checksum failure for ABN: …` exactly for a failed checksum; after the leading pattern, a later character that is no decimal digit raises what `int` raises for it, which is ValueError exactly when that character can be encoded; UnicodeEncodeError is raised exactly when a message would carry non-ASCII text or `int` cannot encode that character |
| DataTools.AbnIdempotent | dmutils/data_tools.py:39-64 | normalising a normalised ABN gives it back unchanged |
| DataTools.AbnPrefixDetermines | dmutils/data_tools.py:56-63 | the checksum and the grouping read only the first eleven characters |
| DataTools.MoneyText | dmutils/data_tools.py:77-80 | the text handed to `Decimal` holds no comma |
| DataTools.ParseMoney | dmutils/data_tools.py:67-85 | the result is the decimal of the stripped, comma-free, dollar-free text when `Decimal` accepts it; otherwise `Invalid money format: …`, or UnicodeEncodeError for non-ASCII text |
| DataTools.MoneyTextDollar | dmutils/data_tools.py:77-80 | only one dollar sign is removed, and only at the front |
| DataTools.MoneyTextPlain | dmutils/data_tools.py:77-80 | text already in plain form is passed on unchanged |
| Logging.SlackEscapeOneChar | dmutils/logging.py:146-155 | the three replacements turn one character into its entity, or leave it |
| Logging.SlackEscapeEachChar | dmutils/logging.py:146-155 | the three passes escape each character exactly once: the `&` of an entity made by a later pass is never escaped again |
| Logging.EscapedHasNoBrackets | dmutils/logging.py:146-155 | the escaped text holds no `<` and no `>` |
| Logging.SlackEscapePlain | dmutils/logging.py:146-155 | text without `&`, `<` and `>` comes back unchanged |
| Logging.UnescapeSlackEscape | dmutils/logging.py:146-155 | escaping loses nothing: reading the entities back gives the original text |
| Logging.UnescapeOne | dmutils/logging.py:152-154 | one escaped character reads back as itself |
| Logging.EscapeEachGrows | dmutils/logging.py:146-155 | escaping never shortens the text, and a special character lengthens it and leaves an `&` |
| Logging.SlackEscapeFixedPoints | dmutils/logging.py:146-155 | the texts left unchanged are exactly those without `&`, `<` and `>` |
| Logging.SlackEscapeNotIdempotent | dmutils/logging.py:146-155 | escaping an escaped text with a special character changes it again |
| Logging.CloseParen | dmutils/logging.py:111 | a closing position found holds `)` |
| Logging.FormatFields | dmutils/logging.py:111-114 | every field `findall(r'\((.+?)\)')` finds is non-empty |
| Logging.CloseParenAfter | dmutils/logging.py:111 | the group after `(` ends at the first `)` |
| Logging.FormatFieldsOfPlaceholders | dmutils/logging.py:111-114 | the names of a run of `%(name)s` placeholders are found again, in order |
| Logging.LogRecord.constructor | dmutils/logging.py:113-116 | a record holds the attributes given |
| Logging.WithFieldsMeaning | dmutils/logging.py:113-116 | after `add_fields` every field is a key, the values already there are kept and the new keys hold None |
| Logging.CustomLogFormatter.constructor | dmutils/logging.py:108 | the formatter keeps its format string |
| Logging.CustomLogFormatter.AddFields | dmutils/logging.py:113-116 | the same record is returned, its attributes those `WithFields` gives for the format's fields |
| Logging.RenamedAllPresent | dmutils/logging.py:136-137 | when every old name is present each value moves to its new name, the old names are gone and every other key is untouched |
| Logging.RenamedMissing | dmutils/logging.py:136-137 | `pop` raises KeyError exactly when an old name is missing, and for the first missing one in the order the pairs are taken |
| Logging.RenamedFirstMissing | dmutils/logging.py:136-137 | the rename that fails is the first whose old name is missing |
| Logging.RenamedNonePresent | dmutils/logging.py:136-137 | a run of renames that raises nothing found every old name |
| Logging.LogFields.constructor | dmutils/logging.py:130 | the dictionary holds the entries given |
| Logging.ProcessedAllPresent | dmutils/logging.py:130-143 | with `asctime`, `request_id` and `app_name` present, in any order of `rename_map`, their values move to `time`, `requestId` and `application`, `logType` is `application`, and only a non-KeyError from the formatting can escape |
| Logging.ProcessedMoves | dmutils/logging.py:136-140 | one pair's value ends under its new name, and the old name is gone |
| Logging.ProcessedAfterRenames | dmutils/logging.py:138-142 | after the renames only `logType` and `message` change, and KeyError is caught |
| Logging.ProcessedMissing | dmutils/logging.py:130-137 | without one of the three names, in any order of `rename_map`, KeyError escapes |
| Logging.ProcessLogRecord | dmutils/logging.py:130-143 | the dictionary after the call and what it raises are those `Processed` gives for the old dictionary |
| Logging.RenameMapDisjoint | dmutils/logging.py:131-135 | any pairs taken from `rename_map` in any order share no name, so no rename undoes another |
| Logging.RenameMapNamesDiffer | dmutils/logging.py:131-135 | two different pairs of `rename_map` share no name |
| Presenters.Quads | dmutils/presenters.py:34 | every match of `re.findall("....")` is four characters without a newline |
| Presenters.QuadsChunks | dmutils/presenters.py:34 | on text without newlines the matches are the consecutive four-character chunks from the left, and a shorter remainder is dropped |
| Presenters.ServiceId | dmutils/presenters.py:30-34 | `_service_id` raises exactly when `str(value)` does |
| Presenters.Upload | dmutils/presenters.py:36-40 | `_upload` succeeds exactly on text; anything else has no `split` |
| Presenters.Boolean | dmutils/presenters.py:42-47 | `Yes` exactly for True, `No` exactly for False, and the empty text for everything else (`is`, so `1` is not True) |
| Presenters.PresentUnchanged | dmutils/presenters.py:9-22 | no content, a content without `type`, or an ASCII type without a presenter leave the value as it is; a type outside ASCII raises UnicodeEncodeError, which `hasattr` raises |
| Presenters.PresentDispatch | dmutils/presenters.py:19-20 | a type with a presenter hands the value to `_boolean`, `_upload` or `_service_id` |
| Presenters.ServiceIdGroups | dmutils/presenters.py:30-34 | an id with no letter and no newline is shown as its consecutive four-character groups |
| Presenters.ServiceIdWithLetter | dmutils/presenters.py:31-32 | an id with a letter is shown whole, in a list of one |
| Presenters.UploadFileName | dmutils/presenters.py:39 | the file name is the part after the last `/`, the whole text when there is none, and the text ends with it |
| Presenters.JoinLast | dmutils/presenters.py:39 | `'/'.join` of two or more parts ends with `/` and the last part |
| Presenters.PresentAll | dmutils/presenters.py:24-28 | the result has exactly the keys of the service data, each holding its value presented with its question; it raises exactly when some value cannot be presented |
| Presenters.PresentedCons | dmutils/presenters.py:25-28 | adding one item to the comprehension's result keeps the others |
| Prices.ParseDecimal | dmutils/validation.py:228-233 | the unsigned decimal a text denotes is never negative |
| Prices.Scale | dmutils/validation.py:228-233 | scaling a non-negative number by a power of ten keeps it non-negative |
| Prices.PlainPriceChars | dmutils/validation.py:236-237 | a price the pattern accepts starts and ends with a digit and holds only digits and a dot |
| Prices.NoExponent | dmutils/validation.py:228-237 | such a price has no exponent for `float` to read |
| Prices.StripDigits | dmutils/validation.py:228-233 | text that starts and ends with a digit, with perhaps a newline after it, strips to itself |
| Prices.ParseFloatUnsigned | dmutils/validation.py:228-233 | text stripping to a digit-led number without an exponent is read by `float` as that decimal |
| Prices.PlainPriceDecimal | dmutils/validation.py:236-237 | every price the pattern accepts denotes a decimal |
| Prices.PriceIsAFloat | dmutils/validation.py:228-237 | every price the pattern accepts is a float, so `is_a_float` adds nothing to `less_than_5_decimal_places`, and `float` reads its decimal value |
| Prices.PriceRefusals | dmutils/validation.py:236-237 | a leading sign, an exponent or a sixth decimal is refused by the pattern |
| Prices.NotPlain | dmutils/validation.py:236-237 | a character other than a digit or a dot, without a final newline, is refused |
| Prices.SixthDecimalRefused | dmutils/validation.py:236-237 | six or more decimals are refused |
| Prices.FormatPriceToNumber | dmutils/validation.py:240-245 | the result is a number exactly when `int()` or `float()` accepts the text, and an integer whenever `int()` does; otherwise it raises what `float()` raises, which is UnicodeEncodeError whenever the text cannot be encoded |
| Prices.FormatEncoded | dmutils/validation.py:240-245 | a price is read as the text it encodes to |
| Prices.FormatOtherScripts | dmutils/validation.py:240-245 | `u'\u0661\u0660'` (ten in Arabic-Indic digits) is the integer 10, and `u'1\u20ac'` raises UnicodeEncodeError |
| Prices.FloatMessages | dmutils/validation.py:245 | `float()` of a word raises `could not convert string to float: <word>`, and of digits then a word `invalid literal for float(): <text>`, with the leading whitespace dropped |
| Prices.FormatWholePrice | dmutils/validation.py:240-245 | a price of digits is stored as that integer |
| Prices.FormatDecimalPrice | dmutils/validation.py:240-245 | a price with decimals is stored as its exact decimal value |
| Prices.ParseDecimalOf | dmutils/validation.py:228-233 | `whole.decimals` denotes `whole + decimals/10^n` |
| Response.FieldValue | react/response.py:5-9 | a key with `[]`, or any number of values other than one, gives the list of values as posted; a lone value under a key without `[]` gives its stripped text |
| Response.DotSplits | react/response.py:13-14 | a dotted key has a parent and a child part |
| Response.InsertCases | react/response.py:4-17 | one pass skips the token; otherwise it (re)writes the target key and keeps every other key; a plain key stores its value, a dotted key stores it in its parent's dictionary; it fails, with TypeError, exactly when a dotted key's parent holds something other than a dictionary |
| Response.RaiseSticks | react/response.py:3-17 | once a key fails, the whole form fails with that error |
| Response.CollectedStep | react/response.py:3-17 | one more key is one more pass |
| Response.FromResponse | react/response.py:1-19 | the loop building the result in place gives what `FormData` states |
| Response.CollectedKeys | react/response.py:3-17 | the keys of the result are exactly the targets of the form's keys other than `csrf_token` |
| Response.FormDataKeys | react/response.py:1-19 | the keys of `from_response` are exactly the targets of the form's keys other than `csrf_token` |
| Response.CsrfTokenLeftOut | react/response.py:4 | there is no token in the result unless another raw key targets that name |
| Response.CsrfTokenListKept | react/response.py:3-11 | the key `csrf_token[]` is not skipped and stores its values under `csrf_token` |
| Response.WithoutToken | react/response.py:4 | the filtered form keeps exactly the keys that do not target the token's name |
| Response.TokenNeverStored | react/response.py:4 | skipping every raw key that targets the token, the result never holds it, and holds the target of every other key |
| Response.CsrfTokenListDropped | react/response.py:4 | with that skip, `csrf_token[]` stores nothing |
| Response.PlainKey | react/response.py:6-8 | a key without brackets is stored as it is |
| Response.ListKey | react/response.py:6-8 | a key `k[]` is stored as `k` and always with the list of values |
| Response.InsertPlain | react/response.py:10-11 | a plain key stores its value under itself |
| Response.InsertList | react/response.py:6-11 | a key `k[]` stores the list under `k` |
| Response.InsertDotted | react/response.py:12-17 | a key `p.c` whose parent is new stores `{c: value}` under `p` |
| Response.DottedKey | react/response.py:6-14 | a key `p.c` names parent `p` and child `c` |
| Response.LaterKeep | react/response.py:3-17 | later keys with other targets leave an entry alone |
| Response.InsertKeeps | react/response.py:10-17 | one pass leaves alone the keys it does not target |
| Response.PlainKeyStored | react/response.py:8-11 | a plain key that no later key targets keeps the value posted under it |
| Response.LaterKeepChild | react/response.py:15-17 | later keys never remove a child of a parent dictionary |
| Response.InsertKeepsChild | react/response.py:15-17 | one pass keeps the other children of a parent |
| Response.DottedKeyStored | react/response.py:12-17 | a key `parent.child` is stored as `result[parent][child]` unless a later key overwrites the parent or the same child |
| Response.ThreeKinds | react/response.py:1-19 | a plain key, a `[]` key and a dotted key give text, a list and a nested dictionary |
| Response.ExtractResponseExample | react/response.py:1-19 | `a=1`, `b[]=2,3`, `c.d=4` give `{a: "1", b: ["2", "3"], c: {d: "4"}}` |
| Response.FirstItem | react/response.py:25 | `v[0]` is the first character of a text or the first item of a list, and raises exactly for a value that is neither or is empty |
| Response.Missing | react/response.py:25 | a missing or falsy answer is missing; a non-empty text is not; a list is missing when its first item is falsy; it raises exactly for a truthy answer that is neither text nor list |
| Response.ValidateFormData | react/response.py:22-27 | the loop gives what `RequiredErrors` states |
| Response.ValidateRaiseSticks | react/response.py:24-26 | once a field fails, the check fails with that error |
| Response.RequiredErrorsFailure | react/response.py:24-26 | the check raises exactly when some required field's answer cannot be indexed |
| Response.RequiredErrorsMeaning | react/response.py:22-27 | the errors name exactly the required fields that are missing, each with `{"required": True}` |
| Response.ValidateFormDataKeys | react/response.py:22-27 | every error key is a required field, and a required field is an error key exactly when it is missing |
| Response.ValidFormNoErrors | react/response.py:22-27 | when every required field is answered there are no errors |
| Response.ValidateFormDataExamples | react/response.py:22-27 | two answered fields give no errors, and a missing `key2` gives `{key2: {required: True}}` |
| Content.Attr | dmutils/content_loader.py:474-478 | `question.key` is the content entry when the key is there and `AttributeError(key)` exactly when it is not |
| Content.FieldNamed | dmutils/content_loader.py:510-515 | `fields.get(key)` is a form field stored under the key, and `None` exactly when no field has that key |
| Content.Items | dmutils/content_loader.py:133 | iterating a list gives its items and a dictionary one text per key; only lists, texts and dictionaries are iterable |
| Content.FirstWithId | dmutils/content_loader.py:368-371 | the sub-question found has the id and comes before every other one with it; `None` exactly when no sub-question has the id |
| Content.GetQuestion | dmutils/content_loader.py:362-371 | the question itself exactly when the name is one of its form fields or its id; otherwise a sub-question with that id; `None` exactly when neither |
| Content.Label | dmutils/content_loader.py:430-432 | a truthy `name`, otherwise the `question` entry (or `AttributeError`) |
| Content.InsertText | dmutils/content_loader.py:437 | inserting into a sorted list keeps it sorted and adds exactly the one text |
| Content.SortTexts | dmutils/content_loader.py:437 | `sorted` gives a sorted permutation of its input |
| Content.FormFieldsCases | dmutils/content_loader.py:434-445 | a question with fields has their values sorted, a permutation of them; a plain question has its id, `AssertionError` for a pricing question and `AttributeError` without a type |
| Content.SubFormFieldsConcat | dmutils/content_loader.py:438-439 | a question with sub-questions has their form fields one after another |
| Content.FieldsOfKeys | dmutils/content_loader.py:456 | each optional key, in order, gives the form field stored under it |
| Content.FieldOfKey | dmutils/content_loader.py:456 | `self.fields[key]` succeeds exactly for a text key that some field has, and gives that field |
| Content.RequiredFormFields | dmutils/content_loader.py:447-449 | a field is required exactly when it is a form field and not an optional one; a failure of either list is the failure |
| Content.RequiredOfOptional | dmutils/content_loader.py:447-460 | an optional question requires nothing; a plain question with no optional markers requires all its form fields |
| Content.GetQuestionIds | dmutils/content_loader.py:462-466 | the ids of sub-questions of the type, or the question's own id when its type matches; `None` matches every type |
| Content.IdsOfType | dmutils/content_loader.py:464 | works exactly when every sub-question has a type, and lists exactly the ids of those of the type |
| Content.ValueIn | dmutils/content_loader.py:136 | `x in list` is membership of the list |
| Content.Satisfied | dmutils/content_loader.py:133-137 | a dependency holds exactly when its `on` names an answer of the service and that answer is among its `being` values |
| Content.AllSatisfiedMeaning | dmutils/content_loader.py:133-138 | the question is shown exactly when every dependency holds, and hidden exactly when one fails after all before it hold |
| Content.ShouldBeShownMeaning | dmutils/content_loader.py:130-138 | no `depends` shows the question; a list shows it exactly when every dependency holds; an empty dictionary shows it and any other raises `TypeError` |
| Content.Applies | dmutils/content_loader.py:425-426 | a validation applies exactly when its `name` is the key and its `field`, when given, is the field; it needs a `name` |
| Content.FirstMessageMeaning | dmutils/content_loader.py:424-428 | the first validation that applies gives its message; when none does, the default message |
| Content.ErrorMessageDefault | dmutils/content_loader.py:416-428 | a key no validation names gives `There was a problem with the answer to this question` |
| Content.ErrorMessageOfDict | dmutils/content_loader.py:424-427 | a dictionary of validations gives the default when empty and raises `TypeError` otherwise |
| Content.First | dmutils/content_loader.py:376 | `form_data[key]` is a value posted under the key |
| Content.GetList | dmutils/content_loader.py:398 | `getlist` holds exactly the values posted under the key |
| Content.QuestionDataKeys | dmutils/content_loader.py:373-386 | the data of a question is keyed by its form fields only |
| Content.SubQuestionDataKeys | dmutils/content_loader.py:380-384 | the merged data of sub-questions is keyed by the parent's form fields |
| Content.SubFormFieldsPart | dmutils/content_loader.py:439 | every sub-question's form fields are among the parent's |
| Content.SingleQuestionDataCases | dmutils/content_loader.py:388-414 | an unposted list question without an assurance approach gives `[]`, and so does one with an ASCII id whose assurance field is not posted either; an unposted assured question with an ASCII id and a posted assurance gives `{assurance}`, and with an id outside ASCII raises UnicodeEncodeError; a posted upload gives nothing; a posted text answer with an assurance approach gives `{value, assurance}` |
| Content.DefaultForField | dmutils/content_loader.py:498-499 | without `field_defaults` there is no default |
| Content.ShownPartsMeaning | dmutils/content_loader.py:506-508 | a summary of a question with sub-questions shows exactly those that are not empty |
| Content.ParentEmpty | dmutils/content_loader.py:501-508 | a question with sub-questions is empty exactly when all of them are |
| Content.AnyRequiredMeaning | dmutils/content_loader.py:527-528 | sub-questions require an answer exactly when one of them does, those before it not; none exactly when each says no |
| Content.MessageKey | dmutils/content_loader.py:664-668 | without a supplier status the key is the framework status as text |
| Content.MessageKeyParts | dmutils/content_loader.py:664-668 | the key `framework-supplier` splits back at its last `-` into the two statuses |
| Content.MakeQuestionId | dmutils/content_loader.py:687-690 | a name starting `serviceTypes` and one of SCS, SaaS, PaaS, IaaS becomes `serviceTypes`; any other stays |
| Content.MakeQuestionIdIdempotent | dmutils/content_loader.py:687-690 | making an id twice gives the same id |
| Manifest.ContentQuestion.constructor | dmutils/content_loader.py:340-342 | a question object holds its content and the number it is given |
| Manifest.ContentQuestion.Summary | dmutils/content_loader.py:357-360 | a new summary object with the same content and number and the service data |
| Manifest.MergedRaiseSticks | dmutils/content_loader.py:243-245 | once a part fails, the merge fails with that error |
| Manifest.MergedFailure | dmutils/content_loader.py:243-245 | the merge succeeds exactly when every part does, and fails with the error of the first that fails |
| Manifest.MergedKey | dmutils/content_loader.py:243-245 | a key is merged exactly when some part has it |
| Manifest.MergedValue | dmutils/content_loader.py:243-245 | a merged key has the value of the last part that has it |
| Manifest.MergeAll | dmutils/content_loader.py:243-247 | the `update` loop gives what `Merged` states |
| Manifest.FieldNamesMeaning | dmutils/content_loader.py:212-220 | the field names exist exactly when each question's form fields do, and are exactly those fields |
| Manifest.SectionQuestion | dmutils/content_loader.py:318-324 | what the first question that knows the field returns; `None` exactly when none does |
| Manifest.Stripped | dmutils/content_loader.py:241 | the same keys in the same order, each value stripped |
| Manifest.MapValues | dmutils/content_loader.py:241 | the loop gives what `MappedValues` states |
| Manifest.SectionDataKeys | dmutils/content_loader.py:227-247 | a section's data is keyed by its field names only |
| Manifest.StrippedFirst | dmutils/content_loader.py:241 | the stripped form has the posted keys, and its first value under a key is the posted one stripped |
| Manifest.AnyChanged | dmutils/content_loader.py:264 | true exactly when some update key's value differs from the service's |
| Manifest.AnyMissing | dmutils/content_loader.py:265 | true exactly when some field has no answer in the service |
| Manifest.HasChangesToSave | dmutils/content_loader.py:249-266 | true exactly when some update differs or some field of the section is missing from the service |
| Manifest.ErrorEntry | dmutils/content_loader.py:276-290 | an unknown field raises `QuestionNotFoundError`; then a message that cannot be found raises; `assurance_required` on a question whose id is outside ASCII raises UnicodeEncodeError; otherwise it gives one entry, under the question's id, or under `<id>--assurance` for `assurance_required`, holding the field name, the label and the message |
| Manifest.ErrorMessagesUnknownField | dmutils/content_loader.py:277-279 | an error for a field no question knows makes the call fail, with `QuestionNotFoundError` of that field when no earlier error failed |
| Manifest.ErrorMessagesKeys | dmutils/content_loader.py:275-291 | the error map is keyed exactly by the error keys of the questions the errors are about |
| Manifest.DictGet | dmutils/content_loader.py:312-313 | `data[key].get(name, None)` on a dictionary; `AttributeError` on anything else |
| Manifest.Unpacked | dmutils/content_loader.py:310-315 | an assurance field gives its value and `--assurance` keys; any other entry its own key |
| Manifest.UnformattedMeaning | dmutils/content_loader.py:293-316 | each assurance field is unpacked into its value and its assurance, every other entry is copied, nothing else is added |
| Manifest.ShownQuestionsMeaning | dmutils/content_loader.py:117-122 | works exactly when every question's dependencies can be evaluated; keeps exactly the questions whose dependencies hold |
| Manifest.SelectedMeaning | dmutils/content_loader.py:117-122 | the selection works exactly when every decision does, and keeps exactly the objects decided true |
| Manifest.NextAfterCurrent | dmutils/content_loader.py:85-91 | once the given section is passed, the next section (or next editable one) is returned |
| Manifest.FirstFrom | dmutils/content_loader.py:86-88 | the first position from `i` on that counts, every one before it skipped as not editable |
| Manifest.NextBeforeCurrent | dmutils/content_loader.py:93-94 | before the given section nothing is returned, and the search restarts after it |
| Manifest.NextSectionIdMeaning | dmutils/content_loader.py:82-96 | without an id, the first (editable) section; an id no section has gives `None` |
| Manifest.NextAfterFirst | dmutils/content_loader.py:82-96 | with a known id, the (editable) section after the first one with that id, or `None` |
| Manifest.NextUnknown | dmutils/content_loader.py:93-96 | while the given id is not met, nothing is returned |
| Manifest.ContentSection.constructor | dmutils/content_loader.py:168-178 | a section holds the attributes it is given |
| Manifest.ContentSection.Create | dmutils/content_loader.py:154-166 | works exactly when the content has `slug`, `name` and `questions`; every question a new unnumbered object of that content |
| Manifest.ContentSection.Copy | dmutils/content_loader.py:183-191 | a new section with the same attributes and a new list of the same question objects |
| Manifest.ContentSection.Summary | dmutils/content_loader.py:193-197 | a copy whose questions are new summary objects of the same content and numbers |
| Manifest.ContentSection.GetQuestionBySlug | dmutils/content_loader.py:326-329 | a question object of the section with that slug; `None` exactly when none has it |
| Manifest.ContentSection.GetQuestionAsSection | dmutils/content_loader.py:199-210 | `None` for an unknown slug; otherwise a new section with the question's slug, label, hint and sub-questions, editable as this section's questions are |
| Manifest.ContentSection.GetData | dmutils/content_loader.py:227-247 | the data of the questions from the stripped form, merged in order |
| Manifest.ContentSection.GetErrorMessages | dmutils/content_loader.py:268-291 | the merged error entries that `ErrorMessages` states |
| Manifest.ContentSection.UnformatData | dmutils/content_loader.py:293-316 | the merged unpacked entries that `Unformatted` states |
| Manifest.QuestionWithSlug | dmutils/content_loader.py:327-329 | a question with the slug, `None` exactly when none has it |
| Manifest.NumberedDistinct | dmutils/content_loader.py:36-40 | with each question object listed once, the questions are numbered 1, 2, ... in order |
| Manifest.SectionWithId | dmutils/content_loader.py:61-66 | the first section with the id; `None` exactly when none has it |
| Manifest.QuestionInSections | dmutils/content_loader.py:140-144 | what the first section that knows the field returns; `None` exactly when none does |
| Manifest.QuestionInSectionsBySlug | dmutils/content_loader.py:146-150 | the question of the first section that has the slug; `None` exactly when none does |
| Manifest.AllDataKeys | dmutils/content_loader.py:68-80 | every key of the data of all sections is a field name of one of them |
| Manifest.FilteredMeaning | dmutils/content_loader.py:101-128 | works exactly when every section's questions can be filtered; keeps, in order, exactly the sections with a question to show, each with those questions |
| Manifest.FilteredFromSections | dmutils/content_loader.py:117-122 | the questions kept are question objects of the manifest |
| Manifest.ContentManifest.constructor | dmutils/content_loader.py:34-40 | a copy of each section sharing its question objects, then every question numbered 1, 2, ... in order across the sections |
| Manifest.ContentManifest.Number | dmutils/content_loader.py:36-40 | the numbering loop numbers every question object in order |
| Manifest.ContentManifest.NumberRun | dmutils/content_loader.py:38-40 | the inner loop gives the questions of one section the next numbers |
| Manifest.ContentManifest.Load | dmutils/content_loader.py:34-40 | from section content: works exactly when each section has `slug`, `name` and `questions`; distinct new question objects numbered 1, 2, ... |
| Manifest.ContentManifest.CreateAll | dmutils/content_loader.py:35 | `ContentSection.create` of each source in order, the first failing source deciding the error |
| Manifest.ContentManifest.Summary | dmutils/content_loader.py:45-59 | a new manifest of the section summaries, its distinct summary objects numbered 1, 2, ... |
| Manifest.ContentManifest.SummarySections | dmutils/content_loader.py:58 | the summary of each section, in order, with new question objects |
| Manifest.ContentManifest.GetAllData | dmutils/content_loader.py:68-80 | the data of every section merged, later sections overriding |
| Manifest.ContentManifest.DataOfSections | dmutils/content_loader.py:78-79 | the data of each section in order |
| Manifest.ContentManifest.GetNextSectionId | dmutils/content_loader.py:82-96 | the loop gives what `NextSectionId` states |
| Manifest.ContentManifest.GetNextEditableSectionId | dmutils/content_loader.py:98-99 | the next editable section |
| Manifest.ContentManifest.Filter | dmutils/content_loader.py:101-112 | a new manifest of copies of the sections that `Filtered` keeps, numbered 1, 2, ...; the shared question objects renumbered, all others keep their numbers |
| Manifest.ContentManifest.Renumbered | dmutils/content_loader.py:112 | the new manifest numbers exactly the kept question objects |
| Manifest.ContentManifest.FilterCopying | dmutils/content_loader.py:101-106 | as the documentation promises: new sections of new question objects numbered 1, 2, ..., this manifest's numbers unchanged |
| Manifest.ContentManifest.KeptSections | dmutils/content_loader.py:107-110 | the filtered copies of the sections with a question to show, in order |
| Manifest.ContentManifest.SectionFilteredBy | dmutils/content_loader.py:114-128 | a copy holding the questions to show, `None` exactly when there is none |
| Manifest.FilterRenumbersShared | dmutils/content_loader.py:101-112 | filtering out the first of two questions turns the second original question's number from 2 into 1 |
| Manifest.FilterCopyingKeepsNumbers | dmutils/content_loader.py:101-106 | with the copying filter the original keeps number 2 and its copy is number 1 |
| Manifest.FilteredPair | dmutils/content_loader.py:130-138 | a question depending on an answer the service lacks is hidden, so only the second section is kept |
| Text.StripIsSlice | dmutils/validation.py:248-249 | `strip()` removes only whitespace, from both ends, and what it keeps neither starts nor ends with whitespace |
| Text.BlankIffStripEmpty | dmutils/validation.py:248-249 | `empty(s)` holds exactly when `s` is whitespace only |
| Text.WordsPartition | dmutils/validation.py:252-253 | the words of `split()` are non-empty, hold no whitespace, and together are the text's non-whitespace characters in order |
| Text.WordsOfWord | dmutils/validation.py:252-253 | a text without whitespace is one word |
| Text.Lower | dmutils/documents.py:130 | `lower()` keeps the length and lower-cases each character by its own Unicode 5.2 mapping |
| Text.LowerCharIdempotent | dmutils/documents.py:130 | a lower-cased character is its own lower case |
| Text.LowerCharExamples | dmutils/file.py:11 | `\u00c9` lower-cases to `\u00e9`, `\u0130` to `i` and the Kelvin sign to `k` |
| Text.DecimalByte | dmutils/data_tools.py:30 | how `int` and `float` encode one character before parsing: the result is a byte, and whitespace only as a space; a digit it gives is the value of a decimal digit of the character's script; any other character that is not whitespace stays itself from U+0001 to U+00FF and cannot be encoded otherwise |
| Text.EncodeDecimal | dmutils/data_tools.py:30 | the text is encoded exactly when every character can be; the encoding keeps the length, holds bytes only, and is the characters encoded one by one; otherwise UnicodeEncodeError |
| Text.EncodeDecimalIdempotent | dmutils/data_tools.py:30 | the encoded text encodes to itself |
| Text.EncodeDecimalExamples | dmutils/data_tools.py:30 | `u'\u0661\u0660'` encodes to `10`; the euro sign cannot be encoded |
| Text.PyInt | dmutils/validation.py:242 | `int()` raises UnicodeEncodeError exactly when the text cannot be encoded, and otherwise reads the encoded bytes |
| Text.PyIntOfChar | dmutils/data_tools.py:30 | `int(c)` is the value of a decimal digit of any script, and raises `CharIntError(c)` for any other character |
| Text.CharIntError | dmutils/data_tools.py:30 | `int(c)` of a non-digit raises UnicodeEncodeError exactly when `c` cannot be encoded, and otherwise `ValueError("invalid literal for int() with base 10: …")` with the `repr` of its byte, or `''` for whitespace |
| Text.ByteReprPlain | dmutils/data_tools.py:30 | `repr` of printable text without quotes or backslashes is that text between single quotes |

## Left out

- I/O and foreign services are not modelled: `send_email` (SES), `hash_email` (SHA-256), `notify_team` (Slack and e-mail), S3 access through boto, and the network clients of `dmutils/apiclient`. `upload_document` and the `s3_upload_*` functions are modelled up to the call into the uploader, whose outcome is a parameter.
- `dmutils/logging.py` beyond `slack_escape`, `add_fields` and the key renaming of `process_log_record` is not modelled. That covers `init_app`, `get_handlers`, `configure_handler`, the request-id filter and the JSON encoding done by the formatter's `format()`. These components configure logging handlers and write output.
- The YAML loading and caching of `ContentLoader` (`load_manifest`, `get_question`, `load_messages`, `get_message` and the path helpers) is file I/O and is not modelled. Its pure helpers `_message_key` and `_make_question_id` are modelled; `_make_slug` uses `inflection` and is not.
- `DateFormatter` (`pendulum`), `markdown_filter`, `format_links` and `timesince` are not part of this model.
- `Prices.FormatPriceToNumber`: Python floats are modelled as exact rationals, the number the text denotes. So rounding of IEEE doubles, `inf` and `nan` are not modelled, and the float comparison of `max_less_than_min` is exact. The price rules first require the price grammar `^[0-9]+(\.\d{1,5})?$`, which excludes most of these inputs.
- `DataTools.ParseMoney`: the `Decimal` constructor is a parameter, so the syntax `Decimal` accepts is not modelled; the string pre-processing before it is.
- `Validation.Validate.FileIsLessThan5mb` and the other file rules read a file handle as a byte sequence with a read position.
- `ValidationRules.ItemsUnder10WordsEach`, `ValidationRules.Under10Items`, `Validation.Validate.ItemsUnder10WordsEach` and `Validation.Validate.Under10Items`: iterating a file answer as lines (`for item in question`) is not modelled. These raise TypeError for a file answer instead of reading its lines.
- `Documents.ValidateDocuments` and `Documents.FilterEmptyFiles` require `DistinctHandles(files)`: every file object appears under one key only. Python accepts one file object under two keys, but then the second read sees the position the first read left. The model does not follow one object through two reads.
- `Manifest.ContentSection.GetQuestionAsSection` builds new `ContentQuestion` objects of the sub-questions' content. The source hands over the question's own list of sub-question objects, `question.questions`, which is then shared with the question. Sub-questions are values inside `Content.Question` here. So the sharing is not modelled, and neither is the later numbering through it. A question without sub-questions gives a section with an empty list here; the source gives `None`, and iterating that section later raises `TypeError`.
- `Manifest.ContentManifest.constructor` takes a list of section objects, and `Manifest.ContentManifest.Load` a list of section contents. A list that mixes both, which `ContentSection.create` would also accept, is not modelled.
- `Content.Question` has an `id` field, so every question is assumed to have the `id` key. In the source, a question without one raises `AttributeError` wherever `question.id` is read. The loader sets `id` on every question it loads.
- `Values.Value` keeps `Bool` and `Int` apart. Python's `1 == True` and `0 == False` are therefore not modelled in comparisons: the dependency test `value in being`, `service.get(key) != update_data[key]` in `has_changes_to_save`, and the `is_empty` test.
- `Content.Items`: iterating a dictionary gives its keys in increasing code-point order. Python 2's order depends on hashing and is not modelled. Every result stated over dictionary keys holds for any order, except which key is met first.
- `ValidationRules.Test` and `Presenters.Present`: the `getattr` dispatch is modelled by the names the classes define (the rule table, the other attributes of `Validate`, and the `_service_id`, `_upload` and `_boolean` presenters). The attributes every Python object has are not modelled, such as `__init__`, `__class__` or `__dict__`, reached by a rule named `__init__` or a `type` of `_init__`.
- `Users.User`'s `is_authenticated`, `is_active` and `is_anonymous` are constants and get no contract of their own.
- `Presenters.PresentAll` and `Validation.Validate.QuestionErrors` take what `content.get_question` returns as the question's content dictionary, or None. `ContentManifest.get_question` (dmutils/content_loader.py:140-144) returns a `ContentQuestion`. That class has `__getitem__` but no `__contains__` or `__iter__`, so `"type" in question` and `"optional" in question` fall back to indexing it with 0, and `getattr` with a number raises TypeError. The model gives these callers a content object on which `in` works.
- `FileStore.UniqueFilename` and `FileStore.UniqueAfterOne`: a name counts as stored when the folder holds it. In the source an object exists when `next()` over its downloaded content returns. An object with an empty body makes `next()` raise StopIteration (dmutils/file.py:17), which is not caught. That case is not modelled.
- `Bytes.Utf8Decode`: Python 2.7 decodes the UTF-8 form of a surrogate code point (ED A0..BF xx) into a lone surrogate. A Dafny `string` cannot hold one, so the model raises UnicodeDecodeError on those bytes.
- Concurrency is not modelled: the Flask request context, the session object and the response are passed in and returned as values or objects.

## Findings

| source | as written | input that shows it | evidently intended | confidence | as-written member | corrected member |
|---|---|---|---|---|---|---|
| dmutils/content_loader.py:101-112 | `filter` builds the new manifest from copies of the sections made with `questions[:]`. The copies share the `ContentQuestion` objects, and the constructor of the new manifest rewrites `question.number` on them. | two one-question sections; the first question depends on `lot` and the service data is `{}`; the second question is number 2 before `filter` and number 1 after it | `filter` returns a new manifest and leaves the original unchanged, as its documentation says, so the original's question keeps number 2 | not executed | Manifest.FilterRenumbersShared | Manifest.ContentManifest.FilterCopying |
| react/response.py:3-4 | only the exact raw key `csrf_token` is skipped; `[]` is removed from key names after that test | a form posting `csrf_token[]` gives a result holding `csrf_token` | no CSRF token reaches the result, whatever its raw key | not executed | Response.CsrfTokenListKept | Response.TokenNeverStored |
