# Schedule For Use action — a Dafny model

This project models the "Schedule For Use" action of a library catalog web
application (`src/Action/ScheduleForUseAction.php`). The action is one HTTP
request handler. It resolves the configured location a catalog item belongs
to from the query parameters (`Permalink`, `Location`, `Status`, optionally
`Title`). On a POST for a resolved location (one whose key is not
PHP-empty) it stores the submitted form fields (`name`, `email`, `tel`,
`from`, `date`, `comments`) in the session and validates them. If they pass,
it sends a request email to the location's staff. Such a POST is answered
either with a redirect (success) or by re-rendering the form with a danger
message; every other request, a POST whose location does not resolve
included, just renders the form.

Modules, one per component of the action:

- `Php` (`php.dfy`): the PHP semantics the action relies on. `empty()` treats
  null, `""` and `"0"` as empty, and an integer key `0` as empty too.
  `preg_match_all('/\d/', ...)` counts digits; `preg_replace('/\s+/', '', ...)`
  removes whitespace.
- `Locations` (`locations.dfy`): `getLocation` as a pure first-match search
  over the ordered location table.
- `Validation` (`validation.dfy`): `validateRequest` as a function of the
  submitted fields and the incoming errors list. It runs the completeness pass,
  then the fail-fast email, phone and date checks.
- `Notification` (`notification.dfy`): the pure parts of `sendEmail`. These are
  the record number rewrite of the permalink, the subject line, the
  addressing, the template name, and the mapping of the mailer's two failure
  modes to request errors.
- `ScheduleForUse` (`action.dfy`): the class `ScheduleForUseAction`. Its fields
  are the session slot `catalog_schedule` and the flash sink. Its methods are
  `ValidateRequest`, with the loop over the fields; `HandlePost`, which
  collects the posted fields and runs the CSRF check, validation and sending;
  and `Invoke`, the POST and GET orchestration.

The library predicates are function-typed values with no assumed
properties. These are `preg_match` of a configured title pattern,
`filter_var(..., FILTER_VALIDATE_EMAIL)`, `strtotime`, `date('Y-m-d', ...)`
and the value of `strtotime('+3 weekdays')`. The title matcher and the email
predicate are constants of the action object. The time functions (`Clock`)
and the mailer's `send` (`Message -> Delivery`) are parameters of `Invoke`, as
are the CSRF check's outcome and the flash messages carried over from the
previous request.

`preg_replace` returns its subject unchanged when nothing matches, so a
permalink without `b` and seven digits gives the whole permalink as the
record number, not an empty string.

## Model

| member | source | states |
|---|---|---|
| `Locations.GetLocation` | src/Action/ScheduleForUseAction.php:139-158 | no location (false) whenever Permalink, Location or Status is absent or PHP-empty, `"0"` included, whatever the table holds |
| `Locations.GetLocationFirstMatch` | src/Action/ScheduleForUseAction.php:139-158 | a key is returned exactly when the three parameters are present and some entry's pattern matches Location and its status equals Status; the key is that of such an entry with no serving entry before it |
| `Locations.Scan` | src/Action/ScheduleForUseAction.php:150-157 | a key returned by the scan belongs to an entry of the table that serves the request |
| `Locations.Resolved` | src/Action/ScheduleForUseAction.php:81 | `!empty($args['location'])`: a key counts as resolved exactly when one is present and it is neither 0, "" nor "0", so every other integer or string key, a location name included, is resolved |
| `Locations.ScanFirstMatch` | src/Action/ScheduleForUseAction.php:150-157 | the scan returns nothing exactly when no entry serves, and otherwise the key of the first serving entry in declaration order |
| `Locations.ScanPicksEarliest` | src/Action/ScheduleForUseAction.php:150-155 | of several serving entries the earliest one wins: a serving entry with no serving entry before it is the one returned |
| `Locations.GetLocationIgnoresOtherKeys` | src/Action/ScheduleForUseAction.php:167-177 | adding any key other than the three read (Record_Number here) does not change the resolved location, so resolving again in the send step gives the same location |
| `Locations.Stored` | src/Action/ScheduleForUseAction.php:177 | looking up a key that is in the table gives a location stored under that key |
| `Locations.ResolvedEntry` | src/Action/ScheduleForUseAction.php:174-177 | with distinct keys, the location stored under the resolved key is the first serving entry |
| `Locations.ZeroKeyReadsAsNoLocation` | src/Action/ScheduleForUseAction.php:81 | a first serving entry stored under key 0 is returned, yet `!empty` reads it as no location |
| `Php.Empty` | src/Action/ScheduleForUseAction.php:143 | a string-or-null value is empty exactly when its string conversion is "" or "0", so null, "" and "0" are empty and every other string is not |
| `Php.KeyEmpty` | src/Action/ScheduleForUseAction.php:81 | an integer key is empty exactly when it is 0, a string key exactly when it is an empty value ("" or "0") |
| `Php.DigitCount` | src/Action/ScheduleForUseAction.php:258 | the count of `\d` matches is at most the length and is zero exactly when no character is a digit |
| `Php.DigitCountAppend` | src/Action/ScheduleForUseAction.php:258 | the digit count of a concatenation is the sum of the counts |
| `Php.NonDigitIgnored` | src/Action/ScheduleForUseAction.php:258 | inserting a non-digit character anywhere leaves the count unchanged |
| `Php.DigitCountIsOccurrences` | src/Action/ScheduleForUseAction.php:258 | the count equals the number of occurrences of the ten characters 0-9, independent of their order |
| `Php.StripWhitespace` | src/Action/ScheduleForUseAction.php:128 | the stripped name holds no whitespace and is no longer than the input |
| `Php.StripWhitespaceAppend` | src/Action/ScheduleForUseAction.php:128 | stripping distributes over concatenation, so the other characters keep their order |
| `Php.StripWhitespaceFixes` | src/Action/ScheduleForUseAction.php:128 | a name without whitespace is left unchanged |
| `Validation.MissingInMembers` | src/Action/ScheduleForUseAction.php:236-240 | a field of the list is recorded exactly when it is not comments and is PHP-empty |
| `Validation.MissingInOrdered` | src/Action/ScheduleForUseAction.php:236-240 | the recorded fields keep the order of the field list |
| `Validation.Validate` | src/Action/ScheduleForUseAction.php:233-274 | the validator only appends to the errors list it is handed; the list it leaves is empty exactly when validation passes; a failure carries one of the four validation messages |
| `Validation.TooEarly` | src/Action/ScheduleForUseAction.php:267 | a parsed date is too early exactly when it is before the threshold; a date `strtotime` cannot parse is `false`, and `false < threshold` compares as booleans, so it is too early exactly when the threshold is non-zero |
| `Validation.MissingFields` | src/Action/ScheduleForUseAction.php:48 | over the declared fields, the recorded fields are exactly the empty required ones, never comments, in declaration order, and none are recorded exactly when every required field is filled in |
| `Validation.IncompleteFails` | src/Action/ScheduleForUseAction.php:236-246 | an empty required field makes validation fail with "Please complete all missing fields." and the errors list becomes the incoming one followed by exactly the empty required fields |
| `Validation.FailFast` | src/Action/ScheduleForUseAction.php:248-273 | with every required field filled in, at most one tag is appended: email, tel or date for the first failing check in that order, each with its own message, and none on success |
| `Validation.LaterChecksIgnored` | src/Action/ScheduleForUseAction.php:249-255 | after a failing email check the phone number, the date and the time functions do not affect the result |
| `Validation.DateIgnoredAfterPhone` | src/Action/ScheduleForUseAction.php:257-264 | after a passing email check and a failing phone check the date and the time functions do not affect the result |
| `Validation.UnparsableDate` | src/Action/ScheduleForUseAction.php:266-273 | with every other check passing, a date `strtotime` cannot parse fails with the date message and the tag `[date]` exactly when the threshold is non-zero, and passes otherwise |
| `Validation.MissingInAgree` | src/Action/ScheduleForUseAction.php:236-240 | the completeness pass depends only on which fields are empty |
| `Validation.PassIff` | src/Action/ScheduleForUseAction.php:233-274 | validation passes exactly when the incoming errors list is empty, all required fields are filled in, the email predicate holds, the phone has at least ten digits and the date is not before the threshold; the errors list then stays empty |
| `Validation.ExampleInvalidEmail` | src/Action/ScheduleForUseAction.php:249-255 | a complete submission with an address the predicate rejects fails with the email message and the tags `[email]` |
| `Validation.ExampleShortPhone` | src/Action/ScheduleForUseAction.php:258-264 | a complete submission with a valid address and a five-digit phone fails with the phone message and the tags `[tel]` |
| `Notification.ActionWithoutWhitespace` | src/Action/ScheduleForUseAction.php:128-129 | the action name "Schedule For Use" without whitespace is `ScheduleForUse`, so the view template is `action/ScheduleForUse.html.twig` and the email template `email/ScheduleForUse.html.twig` |
| `Notification.TemplateName` | src/Action/ScheduleForUseAction.php:127-129 | the template under a directory is that directory, "/", `ScheduleForUse` and ".html.twig": `action/ScheduleForUse.html.twig` for the view, and likewise `email/ScheduleForUse.html.twig` at lines 205-206 |
| `Notification.Line` | src/Action/ScheduleForUseAction.php:168 | the permalink is the text the anchored pattern covers plus at most one final line feed |
| `Notification.DigitRunEnd` | src/Action/ScheduleForUseAction.php:168 | the greedy `\d{7,}` takes the whole run of digits: every character up to the end is a digit and the next one is not |
| `Notification.LastMatch` | src/Action/ScheduleForUseAction.php:168 | the position found is a `b` with seven digits after it and no later position is; with none found no position is |
| `Notification.RecordNumber` | src/Action/ScheduleForUseAction.php:167-171 | the permalink comes back unchanged when it holds no `b` with seven digits, or when a line feed stands anywhere other than at the very end |
| `Notification.RecordNumberOfLastMatch` | src/Action/ScheduleForUseAction.php:167-171 | otherwise the record number is the last `b` with all of its digits, followed by `a` (and the final line feed) |
| `Notification.RecordNumberShape` | src/Action/ScheduleForUseAction.php:167-171 | for a one-line permalink the record number is either the permalink or `b`, at least seven digits and `a` |
| `Notification.ExampleRecordNumber` | src/Action/ScheduleForUseAction.php:167-171 | `/record=b1234567` gives `b1234567a` |
| `Notification.Subject` | src/Action/ScheduleForUseAction.php:182-195 | the subject starts with "Schedule For Use", has " " and the formatted date next when a date was submitted, ends with ": " and the title when the query has one, and has no other characters |
| `Notification.SubjectBare` | src/Action/ScheduleForUseAction.php:182-195 | the subject is the bare action name exactly when neither a date nor a title is present |
| `Notification.FormattedDate` | src/Action/ScheduleForUseAction.php:186-188 | the date part of the subject is `date('Y-m-d', ...)` of the parsed timestamp; a date `strtotime` cannot parse gives `false`, which `date` formats as the timestamp 0 |
| `Notification.Compose` | src/Action/ScheduleForUseAction.php:166-214 | the message goes to the email of the location stored under the resolved key; From and Cc are the same `[email => name]` pair of the submitted fields; the subject, the record number and the email template are as above |
| `Notification.Addressing` | src/Action/ScheduleForUseAction.php:174-213 | with distinct keys the recipient is the email of the first serving location and the requester is copied |
| `Notification.SendEmail` | src/Action/ScheduleForUseAction.php:216-226 | sending succeeds exactly when the mailer reports success; a false answer gives "Could not send email." and a mailer exception "An unexpected error occurred. Please try again." |
| `ScheduleForUse.Submitted` | src/Action/ScheduleForUseAction.php:85-87 | every one of the six fields holds its posted value, null when it was not posted, so the stored array is never empty |
| `ScheduleForUse.ScheduleForUseAction.ValidateRequest` | src/Action/ScheduleForUseAction.php:233-274 | the loop and the three checks compute exactly the errors list and the outcome of `Validation.Validate`, whose properties are the lemmas above |
| `ScheduleForUse.ScheduleForUseAction.Failure` | src/Action/ScheduleForUseAction.php:92-116 | a CSRF error is the request error; otherwise there is none exactly when validation passes and sending succeeds; a failed validation gives its own message, and after a passing validation a failed send gives the mailer's message ("Could not send email." or the unexpected-error message) |
| `ScheduleForUse.ScheduleForUseAction.HandlePost` | src/Action/ScheduleForUseAction.php:84-116 | the POST branch collects exactly the six posted fields, records the validator's tags only when the CSRF check passed, and yields the request error `Failure` describes |
| `ScheduleForUse.ScheduleForUseAction.Invoke` | src/Action/ScheduleForUseAction.php:69-132 | a POST for a resolved location stores the submitted fields in the session and otherwise the session is untouched; a redirect 302 to the URI with an empty query and a success flash happen exactly when the CSRF check, validation and sending all succeed; otherwise the form template is rendered with the query, the resolved key, the messages plus one danger message after a failed POST, the submitted or cached fields and the validation tags, and the flash is untouched |
| `ScheduleForUse.ScheduleForUseAction.constructor` | src/Action/ScheduleForUseAction.php:50-60 | the action keeps the given locations, matcher and email predicate |
| `ScheduleForUse.PostThenGet` | src/Action/ScheduleForUseAction.php:89-124 | after a POST for a resolved location, a GET for a resolved location renders the form with exactly the fields that were posted |
| `ScheduleForUse.FailureCauses` | src/Action/ScheduleForUseAction.php:92-116 | no request error is raised exactly when the CSRF check, the validator and the mailer all succeed; any error carries the CSRF check's message or one of the six fixed messages |

## Left out

- Twig rendering (`view->render`, `view->fetch`): only the template names are modelled; the email body is represented by the record number it is given.
- Swift_Mailer message building: `send` is a parameter that reports success, failure or an exception. A `Swift_SwiftException` raised while the message is built is not modelled; it would map to the same unexpected-error message.
- `send` returns the number of accepted recipients in the library; the model reads it as a boolean, as the `!` test does.
- `validateCsrf` and `messages()` come from a base class that is not part of this model. They are inputs of `Invoke`: the CSRF error message, if any, and the carried-over flash messages.
- The session store and the PSR-7 request and response objects are reduced to a map field, a `Request` datatype and a `Response` datatype; a URI is a path and a query part.
- `preg_match`, `filter_var`, `strtotime`, `date` and the clock have no assumed properties. `strtotime` is taken as one fixed function during a request. A `preg_match` error (false) reads like no match.
- PHP arrays as query, body or configuration values (`Location[]=...`, a non-string `status`) are not modelled. Every value is a string or null, and a non-string status, which never passes the strict comparison, cannot be written down. PHP's conversion of numeric-string keys to integers is not modelled either, so an email address used as the `[email => name]` key stays a string.
- `preg_replace` returning null when PCRE hits its backtracking limit is not modelled.
- The initial `$args['errors']` is taken as unset in `Invoke`. `ValidateRequest` itself accepts any incoming list, and a non-empty one fails the completeness check.
- `Locations.ResolvedEntry`, `Notification.Addressing`: assume the table has distinct keys, as every PHP array does; without that, the lookup by key could find an earlier entry stored under the same key.
