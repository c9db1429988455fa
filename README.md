# Client onboarding backend: validation, uniqueness-checked create, error mapping

This project models the core of an administrative backend that registers
French local authorities (town halls, social-action centres, syndicates,
leisure centres) as clients. The model has three parts.

- **Request validation** (`client_dto.dfy`, module `ClientDto`). This is the
  rule set of `CreateClientDto`, applied by the global validation pipe with
  `whitelist` and `forbidNonWhitelisted`. A request body is a map from
  property names to JSON values.
  - A property the DTO does not declare is a violation.
  - Each declared property is checked against its own rules: string type,
    regular expression, non-emptiness, maximum length, enumeration membership.
  - An optional property that is `null` or absent skips its rules.
  - The regular expressions are written as small anchored matchers. They
    follow the way the engine runs each pattern. Lemmas relate them to a
    plain description of what they accept.
- **Uniqueness-checked create** (`clients_service.dfy`, module `Clients`).
  Class `ClientsService` holds the client table and an identifier counter.
  `Create` looks the SIRET up first.
  - If the SIRET is present, it fails with the conflict and writes nothing.
  - Otherwise it inserts exactly one record and returns only `{id, name}`.
    The record is the DTO with the e-mail lower-cased and trimmed, and with
    status DRAFT.
  - The class invariant says that no two records share a SIRET.
- **Exception filter** (`exceptions_filter.dfy`, module `ExceptionsFilter`).
  A pure function maps a thrown exception to the response status and the body
  `{statusCode, message}`:
  - An HTTP exception keeps its status. Anything else gets 500.
  - The message of a non-HTTP exception falls back to
    `"Internal server error"`.
  - An object message with a truthy `message` property is unwrapped, one
    level only.
  - The filter reads `message` from `null` or `undefined` in two cases: when
    that is what was thrown, and when an HTTP exception's payload is `null`.
    JavaScript then raises a TypeError inside the filter. The model makes
    this a separate outcome, `FilterThrows`.

Supporting modules:

- `js_text.dfy` (`JsText`) holds the ECMAScript whitespace set (ECMA-262,
  sections 12.2 and 12.3). The regular-expression escape `\s` and
  `String.prototype.trim` both use this set. The module also holds ASCII
  lower-casing and trimming.
- `js_values.dfy` (`JsValues`) holds JavaScript values, truthiness and the
  property read `v.message`.
- `http_exceptions.dfy` (`HttpExceptions`) holds the exception values. It
  includes the framework's `ConflictException`, whose payload is
  `{statusCode: 409, message, error: "Conflict"}`.
- `api_messages.dfy` (`ApiMessages`) holds the conflict message.
- `wrappers.dfy` (`Wrappers`) holds `Option` and `Result`.

The DTO's enumerations come from `src/common/enums`, which is not part of
this model. Their values are the ones listed in `src/main.ts`, and each
member's value is taken to equal its name.

## Model

| member | source | states |
|---|---|---|
| `ClientDto.ParseClientType` | src/clients/dto/create-client.dto.ts:19-20 | A string is accepted as a client type iff it is the name of one of MAIRIE, CCAS, SYNDICAT, CENTRE_LOISIRS, and the member returned has that name |
| `ClientDto.ParseAccountingSystem` | src/clients/dto/create-client.dto.ts:87-89 | A string is accepted as an accounting system iff it names one of MAGNUS, CIRIL, SEGILOG, BERGER_LEVRAULT, JVS, COSOLUCE, OTHER, and the member returned has that name |
| `ClientDto.MatchDigitsIff` | src/clients/dto/create-client.dto.ts:27 | The matcher for `[0-9]{n}$` accepts a string iff it has length n and every character is in '0'..'9'; this applies to SIRET (n = 14) and postal code (n = 5) |
| `ClientDto.SiretExample` | src/clients/dto/create-client.dto.ts:22-27 | The documented SIRET `21920063500014` is accepted |
| `ClientDto.ShortSiretRejected` | src/clients/dto/create-client.dto.ts:22-27 | The three-digit string `123` is rejected as a SIRET |
| `ClientDto.PostalCodeExample` | src/clients/dto/create-client.dto.ts:48-53 | The documented postal code `92210` is accepted |
| `ClientDto.MatchGroupsSound` | src/clients/dto/create-client.dto.ts:77 | Whatever the matcher for `(\s?[0-9]{2}){k}$` accepts splits into k groups, each two digits optionally preceded by one whitespace character |
| `ClientDto.MatchGroupsComplete` | src/clients/dto/create-client.dto.ts:77 | Every concatenation of k such groups is accepted by that matcher |
| `ClientDto.MatchGroupsLength` | src/clients/dto/create-client.dto.ts:77 | k accepted groups span between 2k and 3k characters |
| `ClientDto.FrenchPhoneIff` | src/clients/dto/create-client.dto.ts:76-79 | A phone is accepted iff it is `+33` or `0`, then a digit 1-9, then exactly four groups of an optional whitespace character and two digits, with nothing after |
| `ClientDto.FrenchPhoneLength` | src/clients/dto/create-client.dto.ts:77 | An accepted phone starts with `0` and has 10-14 characters, or starts with `+33` and has 12-16 characters |
| `ClientDto.PhoneExample` | src/clients/dto/create-client.dto.ts:72-77 | The documented phone `+33146021234` is accepted |
| `ClientDto.Validate` | src/clients/dto/create-client.dto.ts:13-108 | A body is accepted iff every property is declared and every declared property passes its rules. On success the DTO satisfies all rules: SIRET, postal code and phone formats; name and address non-empty and at most 255; city non-empty and at most 100; codes at most 15. Each of its properties holds the body's value, and a property that is missing or `null` is absent (`None`) in the DTO; the body it sends back holds no key the request lacked. On failure the error is the non-empty set of all violations |
| `ClientDto.FieldOf` | src/main.ts:24-25 | The whitelist's lookup: a key is found iff it is the name of a property the DTO declares, and the property found has that name |
| `ClientDto.FieldAccepts` | src/clients/dto/create-client.dto.ts:19-107 | The rules of one property applied to one body value: `null` and `undefined` pass exactly on the three `@IsOptional()` properties, and any other accepted value is a string |
| `ClientDto.IsValidCreateClient` | src/clients/dto/create-client.dto.ts:13-108 | Every rule holds of the typed record. A valid record has a SIRET of 14 characters and a postal code of 5, and a phone that starts with `0` and has 10-14 characters or starts with `+33` and has 12-16 |
| `ClientDto.ViolationsIff` | src/main.ts:22-28 | The pipe finds no violation exactly when no property is undeclared and no declared property fails a rule |
| `ClientDto.ValidIffFieldsAccept` | src/clients/dto/create-client.dto.ts:13-108 | The typed validity of a DTO holds iff each of its eleven properties, as a body value, passes the rules declared on it |
| `ClientDto.ValidRoundTrip` | src/clients/dto/create-client.dto.ts:13-108 | Sending a valid DTO as a body and validating it returns the same DTO |
| `ClientDto.InvalidRejected` | src/clients/dto/create-client.dto.ts:13-108 | Sending a DTO that breaks any rule as a body is rejected |
| `ClientDto.StatusAndIdRejected` | src/main.ts:24-25 | A body carrying `status` or `id` is rejected with that property reported as not whitelisted, so a validated request never sets a status |
| `ClientDto.BadSiretReported` | src/clients/dto/create-client.dto.ts:26-27 | A string SIRET that is not 14 digits is rejected and reported against the `siret` property |
| `JsText.TrimStart` | src/clients/clients.service.ts:24 | The result is the suffix left after the longest whitespace prefix: everything removed is whitespace and the result does not start with whitespace |
| `JsText.TrimEnd` | src/clients/clients.service.ts:24 | The result is the prefix left before the longest whitespace suffix: everything removed is whitespace and the result does not end with whitespace |
| `JsText.Trim` | src/clients/clients.service.ts:24 | `trim()` yields a trimmed slice of the input with only whitespace on either side of it |
| `JsText.LowerChar` | src/clients/clients.service.ts:24 | `toLowerCase()` on one character: the k-th letter of `A`..`Z` becomes the k-th letter of `a`..`z`, every other character is kept, no ASCII upper-case letter remains, and whitespace stays whitespace |
| `JsText.ToLowerAscii` | src/clients/clients.service.ts:24 | `toLowerCase()` on a string: the length is kept, each upper-case ASCII letter becomes its lower-case letter at the same position, and the result holds no ASCII upper-case letter |
| `JsText.LowerIsFixed` | src/clients/clients.service.ts:24 | Lower-casing a string with no ASCII upper-case letter leaves it unchanged, so lower-casing twice equals lower-casing once |
| `Clients.NormalizeEmail` | src/clients/clients.service.ts:24 | The stored e-mail holds no ASCII upper-case letter and has no surrounding whitespace. It is the lower-cased input with only surrounding whitespace removed |
| `Clients.NormalizeEmailIdempotent` | src/clients/clients.service.ts:24 | Normalising an already normalised e-mail leaves it unchanged |
| `Clients.NormalizeEmailExample` | src/clients/clients.service.ts:24 | `Contact@Mairie-Saint-Cloud.FR ` is stored as `contact@mairie-saint-cloud.fr` |
| `HttpExceptions.ConflictException` | src/clients/clients.service.ts:17 | The conflict thrown on a duplicate SIRET has status 409, reading its payload's `message` gives back the message it was built with, and the payload's `statusCode` equals its status |
| `Clients.NewClient` | src/clients/clients.service.ts:20-26 | The inserted record has the generated id and status DRAFT. Every DTO property equals the request's, except that the e-mail is normalised |
| `Clients.InsertKeepsSiretsUnique` | src/clients/clients.service.ts:12-26 | Inserting a record under a fresh id with a SIRET not yet present keeps SIRETs unique and adds exactly that SIRET |
| `Clients.ClientsService.FindBySiret` | src/clients/clients.service.ts:12-14 | The lookup finds a record iff the SIRET is present, and the record found is the stored one holding that SIRET |
| `Clients.ClientsService.Create` | src/clients/clients.service.ts:10-33 | Fails with the 409 conflict carrying the fixed message iff the SIRET is already present, and then nothing changes. Otherwise exactly one record is added under a fresh id and every earlier record is kept. The new record is the DTO with normalised e-mail and status DRAFT, and the result is exactly `{id, name}` with the DTO's name. SIRETs stay unique, the set of SIRETs only grows, and the SIRET is present afterwards |
| `Clients.CreateTwice` | src/clients/clients.service.ts:12-18 | After any create with a SIRET, a second create with that SIRET fails with the same conflict and leaves the table as the first call left it |
| `JsValues.ReadMessage` | src/common/pipes/all-exceptions.filter.ts:25 | Reading `message` throws exactly for `null` and `undefined`. It yields an object's `message` property, and `undefined` when there is none |
| `ExceptionsFilter.Catch` | src/common/pipes/all-exceptions.filter.ts:12-36 | The status is the HTTP exception's own, else 500, and the body's statusCode equals it. A non-HTTP exception always gets a truthy message. The filter throws exactly when it reads `message` from null or undefined |
| `ExceptionsFilter.StringPayloadKept` | src/common/pipes/all-exceptions.filter.ts:22-30 | A string payload is emitted unchanged with the exception's status |
| `ExceptionsFilter.MessagePropertyUnwrapped` | src/common/pipes/all-exceptions.filter.ts:28-30 | An object payload with a truthy `message` property is replaced by that property |
| `ExceptionsFilter.ObjectWithoutMessageKept` | src/common/pipes/all-exceptions.filter.ts:28-30 | An object payload without a truthy `message` property is emitted whole |
| `ExceptionsFilter.UnwrapOneLevelOnly` | src/common/pipes/all-exceptions.filter.ts:28-30 | Only one level is unwrapped: a `message` that is itself an object with a `message` is emitted as that object |
| `ExceptionsFilter.ThrownErrorMessage` | src/common/pipes/all-exceptions.filter.ts:17-25 | A thrown error with a non-empty string message answers 500 with that message |
| `ExceptionsFilter.ThrownWithoutMessage` | src/common/pipes/all-exceptions.filter.ts:22-25 | A thrown value without a truthy `message` answers 500 with `Internal server error` |
| `ExceptionsFilter.ConflictResponse` | src/common/pipes/all-exceptions.filter.ts:32-35 | A conflict with a non-empty message answers 409 with body `{statusCode: 409, message}` |
| `ExceptionsFilter.DuplicateSiretResponse` | src/common/messages.ts:7 | A duplicate SIRET answers 409 with `A client with this SIRET already exists` |

## Left out

- `@IsEmail`: the e-mail grammar belongs to an external validation library. It is the parameter `isEmail` of the validation functions, and nothing is assumed about it.
- `@MaxLength`: lengths are counted in Unicode code points. The external library's special treatment of variation selectors is not modelled.
- `toLowerCase`: only ASCII letters are lower-cased. Unicode case mapping, including mappings that change a string's length, is not modelled.
- JavaScript numbers are integers here. Fractions and NaN are not modelled. A JSON value that is not a string fails every string rule, as in the source.
- Record identifiers are a counter in the model. The store generates collision-resistant identifiers instead, and that generator is not part of this model. The `createdAt`/`updatedAt` timestamps are not modelled either.
- Concurrency: `Create` is atomic in the model. The race between the lookup and the insert is not modelled. The store's own unique constraint on `siret`, which would back the lookup up, is not modelled.
- Storage failures (an unavailable database) are not modelled. The exception they would raise is covered by the filter's non-HTTP case.
- The HTTP adapter is not modelled: the controller's one-line delegation, the 201 status, and the text of the validation pipe's 400 messages. The validation outcome is the set of violated properties instead.
- What the framework does after the filter throws its own TypeError (`FilterThrows`) is not modelled. The response write itself is I/O and is replaced by the returned status and body.
- `ConflictException`'s payload shape is framework behaviour, modelled as `{statusCode, message, error}`.
- Bootstrap (global prefix, CORS, Swagger documentation, listening), the documentation decorators, the controller template, the CUID validators, the database service lifecycle and the seed script are not modelled. They are configuration, documentation or I/O.
- `src/common/enums`, the Prisma schema and the class-validator and NestJS libraries are not part of this model.
