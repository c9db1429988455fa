/**
 * The request body of client creation and its validation rules: the global
 * validation pipe rejects properties the DTO does not declare, then checks
 * every declared property with its own rules (string type, regular
 * expression, non-emptiness, maximum length, enumeration membership), and
 * skips the rules of an optional property that is `null` or absent.
 */
module ClientDto {
  import opened Wrappers
  import opened JsText
  import opened JsValues

  /** Kind of local authority. */
  datatype ClientType = MAIRIE | CCAS | SYNDICAT | CENTRE_LOISIRS

  /** Accounting software used by the local authority. */
  datatype AccountingSystem = MAGNUS | CIRIL | SEGILOG | BERGER_LEVRAULT | JVS | COSOLUCE | OTHER

  function ClientTypeName(t: ClientType): string {
    match t
    case MAIRIE => "MAIRIE"
    case CCAS => "CCAS"
    case SYNDICAT => "SYNDICAT"
    case CENTRE_LOISIRS => "CENTRE_LOISIRS"
  }

  /** `@IsEnum(ClientType)`: the member whose value is `s`, if any. */
  function ParseClientType(s: string): (r: Option<ClientType>)
    ensures r.Some? ==> ClientTypeName(r.value) == s
    ensures r.None? ==> forall t :: ClientTypeName(t) != s
  {
    if s == "MAIRIE" then Some(MAIRIE)
    else if s == "CCAS" then Some(CCAS)
    else if s == "SYNDICAT" then Some(SYNDICAT)
    else if s == "CENTRE_LOISIRS" then Some(CENTRE_LOISIRS)
    else None
  }

  function AccountingSystemName(a: AccountingSystem): string {
    match a
    case MAGNUS => "MAGNUS"
    case CIRIL => "CIRIL"
    case SEGILOG => "SEGILOG"
    case BERGER_LEVRAULT => "BERGER_LEVRAULT"
    case JVS => "JVS"
    case COSOLUCE => "COSOLUCE"
    case OTHER => "OTHER"
  }

  /** `@IsEnum(AccountingSystem)`: the member whose value is `s`, if any. */
  function ParseAccountingSystem(s: string): (r: Option<AccountingSystem>)
    ensures r.Some? ==> AccountingSystemName(r.value) == s
    ensures r.None? ==> forall a :: AccountingSystemName(a) != s
  {
    if s == "MAGNUS" then Some(MAGNUS)
    else if s == "CIRIL" then Some(CIRIL)
    else if s == "SEGILOG" then Some(SEGILOG)
    else if s == "BERGER_LEVRAULT" then Some(BERGER_LEVRAULT)
    else if s == "JVS" then Some(JVS)
    else if s == "COSOLUCE" then Some(COSOLUCE)
    else if s == "OTHER" then Some(OTHER)
    else None
  }

  // ---------------------------------------------------------------------
  // Regular expressions, as anchored matchers
  // ---------------------------------------------------------------------

  /** `[0-9]{n}$`: matches when `s` is made of exactly `n` ASCII digits. */
  function MatchDigits(s: string, n: nat): bool {
    if n == 0 then s == []
    else s != [] && IsAsciiDigit(s[0]) && MatchDigits(s[1..], n - 1)
  }

  /** The matcher accepts exactly the strings of `n` ASCII digits. */
  lemma {:induction false} MatchDigitsIff(s: string, n: nat)
    ensures MatchDigits(s, n) <==> |s| == n && forall i :: 0 <= i < |s| ==> IsAsciiDigit(s[i])
  {
    if n > 0 && s != [] {
      MatchDigitsIff(s[1..], n - 1);
      if |s| == n && forall i :: 0 <= i < |s| ==> IsAsciiDigit(s[i]) {
        assert forall i :: 0 <= i < |s[1..]| ==> IsAsciiDigit(s[1..][i]) by {
          forall i | 0 <= i < |s[1..]| ensures IsAsciiDigit(s[1..][i]) {
            assert s[1..][i] == s[i + 1];
          }
        }
      }
    }
  }

  /** `/^[0-9]{14}$/`: the SIRET format. */
  predicate IsSiret(s: string) {
    MatchDigits(s, 14)
  }

  /** `/^[0-9]{5}$/`: the postal-code format. */
  predicate IsPostalCode(s: string) {
    MatchDigits(s, 5)
  }

  /**
   * `(\s?[0-9]{2}){k}$`: `k` groups, each an optional whitespace character
   * and two digits, up to the end of input. The engine tries the group with
   * the whitespace first and backtracks to the group without it.
   */
  function MatchGroups(s: string, k: nat): bool {
    if k == 0 then s == []
    else
      || (|s| >= 3 && IsJsWhitespace(s[0]) && MatchDigits(s[1..3], 2) && MatchGroups(s[3..], k - 1))
      || (|s| >= 2 && MatchDigits(s[..2], 2) && MatchGroups(s[2..], k - 1))
  }

  /** `[1-9](\s?[0-9]{2}){4}$`: what follows the prefix of a phone number. */
  predicate MatchSubscriber(s: string) {
    s != [] && '1' <= s[0] <= '9' && MatchGroups(s[1..], 4)
  }

  /** `/^(\+33|0)[1-9](\s?[0-9]{2}){4}$/`: the French phone format. */
  predicate IsFrenchPhone(s: string) {
    || (|s| >= 3 && s[..3] == "+33" && MatchSubscriber(s[3..]))
    || (s != [] && s[0] == '0' && MatchSubscriber(s[1..]))
  }

  // ---------------------------------------------------------------------
  // The phone format, spelled out group by group
  // ---------------------------------------------------------------------

  /** One group: two digits, optionally preceded by one whitespace character. */
  predicate IsPhoneGroup(g: string) {
    || (|g| == 2 && IsAsciiDigit(g[0]) && IsAsciiDigit(g[1]))
    || (|g| == 3 && IsJsWhitespace(g[0]) && IsAsciiDigit(g[1]) && IsAsciiDigit(g[2]))
  }

  function Concat(gs: seq<string>): string {
    if gs == [] then [] else gs[0] + Concat(gs[1..])
  }

  /** `s` is the concatenation of the `k` groups `gs`. */
  ghost predicate IsGroupSpelling(s: string, k: nat, gs: seq<string>) {
    |gs| == k && (forall i :: 0 <= i < |gs| ==> IsPhoneGroup(gs[i])) && Concat(gs) == s
  }

  /** `s` is `prefix`, then the digit `d`, then the four groups `gs`. */
  ghost predicate IsPhoneSpelling(s: string, prefix: string, d: char, gs: seq<string>) {
    && (prefix == "+33" || prefix == "0")
    && '1' <= d <= '9'
    && IsGroupSpelling(Concat(gs), 4, gs)
    && s == prefix + [d] + Concat(gs)
  }

  lemma MatchDigitsTwo(s: string)
    requires |s| == 2
    ensures MatchDigits(s, 2) <==> IsAsciiDigit(s[0]) && IsAsciiDigit(s[1])
  {
    MatchDigitsIff(s, 2);
  }

  /** Every string the group matcher accepts splits into `k` groups. */
  lemma {:induction false} MatchGroupsSound(s: string, k: nat)
    requires MatchGroups(s, k)
    ensures exists gs :: IsGroupSpelling(s, k, gs)
  {
    if k == 0 {
      assert IsGroupSpelling(s, 0, []);
    } else {
      var n := if |s| >= 3 && IsJsWhitespace(s[0]) && MatchDigits(s[1..3], 2) && MatchGroups(s[3..], k - 1)
               then 3 else 2;
      if n == 3 {
        MatchDigitsTwo(s[1..3]);
      } else {
        MatchDigitsTwo(s[..2]);
      }
      MatchGroupsSound(s[n..], k - 1);
      var rest :| IsGroupSpelling(s[n..], k - 1, rest);
      var gs := [s[..n]] + rest;
      assert gs[1..] == rest;
      assert s == s[..n] + s[n..];
      assert IsGroupSpelling(s, k, gs);
    }
  }

  /** Every concatenation of `k` groups is accepted by the group matcher. */
  lemma {:induction false} MatchGroupsComplete(s: string, k: nat, gs: seq<string>)
    requires IsGroupSpelling(s, k, gs)
    ensures MatchGroups(s, k)
    decreases k
  {
    if k > 0 {
      var g := gs[0];
      assert s == g + Concat(gs[1..]);
      assert IsGroupSpelling(Concat(gs[1..]), k - 1, gs[1..]) by {
        forall i | 0 <= i < |gs[1..]| ensures IsPhoneGroup(gs[1..][i]) {
          assert gs[1..][i] == gs[i + 1];
        }
      }
      MatchGroupsComplete(Concat(gs[1..]), k - 1, gs[1..]);
      assert s[|g|..] == Concat(gs[1..]);
      if |g| == 3 {
        assert s[1..3] == g[1..3];
        MatchDigitsTwo(s[1..3]);
      } else {
        assert s[..2] == g;
        MatchDigitsTwo(s[..2]);
      }
    }
  }

  /**
   * The phone regular expression accepts exactly the strings spelled as
   * `+33` or `0`, a digit from 1 to 9, and four groups of two digits each
   * optionally preceded by one whitespace character.
   */
  lemma FrenchPhoneIff(s: string)
    ensures IsFrenchPhone(s) <==> exists prefix, d, gs :: IsPhoneSpelling(s, prefix, d, gs)
  {
    if IsFrenchPhone(s) {
      FrenchPhoneSpelled(s);
    }
    if exists prefix, d, gs :: IsPhoneSpelling(s, prefix, d, gs) {
      var prefix, d, gs :| IsPhoneSpelling(s, prefix, d, gs);
      SpelledPhoneAccepted(s, prefix, d, gs);
    }
  }

  lemma FrenchPhoneSpelled(s: string)
    requires IsFrenchPhone(s)
    ensures exists prefix, d, gs :: IsPhoneSpelling(s, prefix, d, gs)
  {
    var n := if |s| >= 3 && s[..3] == "+33" && MatchSubscriber(s[3..]) then 3 else 1;
    var prefix, rest := s[..n], s[n..];
    assert prefix == "+33" || prefix == "0";
    MatchGroupsSound(rest[1..], 4);
    var gs :| IsGroupSpelling(rest[1..], 4, gs);
    assert rest == [rest[0]] + rest[1..];
    assert s == prefix + rest;
    assert IsPhoneSpelling(s, prefix, rest[0], gs);
  }

  lemma SpelledPhoneAccepted(s: string, prefix: string, d: char, gs: seq<string>)
    requires IsPhoneSpelling(s, prefix, d, gs)
    ensures IsFrenchPhone(s)
  {
    MatchGroupsComplete(Concat(gs), 4, gs);
    var rest := [d] + Concat(gs);
    assert rest[0] == d && rest[1..] == Concat(gs);
    assert MatchSubscriber(rest);
    var n := |prefix|;
    assert s[..n] == prefix && s[n..] == rest by {
      assert s == prefix + rest;
    }
    if prefix == "0" {
      assert s[0] == s[..n][0];
    }
  }

  /** `k` groups span between `2k` and `3k` characters. */
  lemma {:induction false} MatchGroupsLength(s: string, k: nat)
    requires MatchGroups(s, k)
    ensures 2 * k <= |s| <= 3 * k
  {
    if k > 0 {
      if |s| >= 3 && IsJsWhitespace(s[0]) && MatchDigits(s[1..3], 2) && MatchGroups(s[3..], k - 1) {
        MatchGroupsLength(s[3..], k - 1);
      } else {
        MatchGroupsLength(s[2..], k - 1);
      }
    }
  }

  /**
   * An accepted phone number starts with `0` and has 10 to 14 characters,
   * or starts with `+33` and has 12 to 16 characters.
   */
  lemma FrenchPhoneLength(s: string)
    requires IsFrenchPhone(s)
    ensures s[0] == '0' || s[0] == '+'
    ensures s[0] == '0' ==> 10 <= |s| <= 14
    ensures s[0] == '+' ==> s[..3] == "+33" && 12 <= |s| <= 16
  {
    if |s| >= 3 && s[..3] == "+33" && MatchSubscriber(s[3..]) {
      assert s[0] == s[..3][0] == '+';
      MatchGroupsLength(s[3..][1..], 4);
    } else {
      MatchGroupsLength(s[1..][1..], 4);
    }
  }


  // ---------------------------------------------------------------------
  // The DTO and the request body
  // ---------------------------------------------------------------------

  /**
   * A validated creation request. It declares no `id` and no `status`: the
   * record has exactly the eleven properties the DTO class declares. Absent
   * optional properties are `None`.
   */
  datatype CreateClientDto = CreateClientDto(
    clientType: ClientType,
    siret: string,
    name: string,
    address: string,
    postalCode: string,
    city: string,
    email: string,
    phone: string,
    accountingSystem: Option<AccountingSystem>,
    collectivityCode: Option<string>,
    budgetCode: Option<string>)

  /** The properties the DTO declares. */
  datatype Field =
    | ClientTypeField | SiretField | NameField | AddressField | PostalCodeField | CityField
    | EmailField | PhoneField | AccountingSystemField | CollectivityCodeField | BudgetCodeField

  function PropertyName(f: Field): string {
    match f
    case ClientTypeField => "clientType"
    case SiretField => "siret"
    case NameField => "name"
    case AddressField => "address"
    case PostalCodeField => "postalCode"
    case CityField => "city"
    case EmailField => "email"
    case PhoneField => "phone"
    case AccountingSystemField => "accountingSystem"
    case CollectivityCodeField => "collectivityCode"
    case BudgetCodeField => "budgetCode"
  }

  /** The declared property named `key`; `None` for a property the whitelist rejects. */
  function FieldOf(key: string): (r: Option<Field>)
    ensures r.Some? ==> PropertyName(r.value) == key
    ensures r.None? ==> forall f :: PropertyName(f) != key
  {
    if key == "clientType" then Some(ClientTypeField)
    else if key == "siret" then Some(SiretField)
    else if key == "name" then Some(NameField)
    else if key == "address" then Some(AddressField)
    else if key == "postalCode" then Some(PostalCodeField)
    else if key == "city" then Some(CityField)
    else if key == "email" then Some(EmailField)
    else if key == "phone" then Some(PhoneField)
    else if key == "accountingSystem" then Some(AccountingSystemField)
    else if key == "collectivityCode" then Some(CollectivityCodeField)
    else if key == "budgetCode" then Some(BudgetCodeField)
    else None
  }

  const AllFields: seq<Field> := [
    ClientTypeField, SiretField, NameField, AddressField, PostalCodeField, CityField,
    EmailField, PhoneField, AccountingSystemField, CollectivityCodeField, BudgetCodeField]

  /** A parsed JSON request body. */
  type Body = map<string, JsValue>

  /** The value of property `key`; `undefined` when the body does not carry it. */
  function Lookup(body: Body, key: string): JsValue {
    if key in body then body[key] else Undefined
  }

  /** The value property `f` keeps once validated: the body's, with `null` read as absent. */
  function PresentValue(body: Body, f: Field): JsValue {
    var v := Lookup(body, PropertyName(f));
    if IsNullish(v) then Undefined else v
  }

  /** `@IsString() @IsNotEmpty() @MaxLength(max)`. */
  predicate IsBoundedText(v: JsValue, max: nat) {
    v.Str? && v.s != "" && |v.s| <= max
  }

  /** `@IsOptional() @IsString() @MaxLength(15)`. */
  predicate IsOptionalCode(v: JsValue) {
    IsNullish(v) || (v.Str? && |v.s| <= 15)
  }

  /** The properties marked `@IsOptional()`. */
  predicate IsOptionalField(f: Field) {
    f == AccountingSystemField || f == CollectivityCodeField || f == BudgetCodeField
  }

  /**
   * The rules declared on property `f`, applied to its value `v`. Only the
   * optional properties accept `null` or `undefined`; any other value a
   * property accepts is a string.
   */
  function FieldAccepts(f: Field, v: JsValue, isEmail: string -> bool): (ok: bool)
    ensures IsNullish(v) ==> (ok <==> IsOptionalField(f))
    ensures ok && !IsNullish(v) ==> v.Str?
  {
    match f
    case ClientTypeField => v.Str? && ParseClientType(v.s).Some?
    case SiretField => v.Str? && IsSiret(v.s)
    case NameField => IsBoundedText(v, 255)
    case AddressField => IsBoundedText(v, 255)
    case PostalCodeField => v.Str? && IsPostalCode(v.s)
    case CityField => IsBoundedText(v, 100)
    case EmailField => v.Str? && isEmail(v.s)
    case PhoneField => v.Str? && IsFrenchPhone(v.s)
    case AccountingSystemField => IsNullish(v) || (v.Str? && ParseAccountingSystem(v.s).Some?)
    case CollectivityCodeField => IsOptionalCode(v)
    case BudgetCodeField => IsOptionalCode(v)
  }

  /** The value property `f` of `dto` has in a request body; `undefined` when it is absent. */
  function FieldValue(dto: CreateClientDto, f: Field): JsValue {
    match f
    case ClientTypeField => Str(ClientTypeName(dto.clientType))
    case SiretField => Str(dto.siret)
    case NameField => Str(dto.name)
    case AddressField => Str(dto.address)
    case PostalCodeField => Str(dto.postalCode)
    case CityField => Str(dto.city)
    case EmailField => Str(dto.email)
    case PhoneField => Str(dto.phone)
    case AccountingSystemField =>
      if dto.accountingSystem.Some? then Str(AccountingSystemName(dto.accountingSystem.value)) else Undefined
    case CollectivityCodeField =>
      if dto.collectivityCode.Some? then Str(dto.collectivityCode.value) else Undefined
    case BudgetCodeField =>
      if dto.budgetCode.Some? then Str(dto.budgetCode.value) else Undefined
  }

  lemma FieldValueNotNull(dto: CreateClientDto, f: Field)
    ensures !FieldValue(dto, f).Null?
  {
  }

  /** The body that carries exactly the present properties of `dto`. */
  function ToBody(dto: CreateClientDto): Body {
    BodyOf(dto, AllFields)
  }

  /** The body that carries the present properties of `dto` among `fs`. */
  function BodyOf(dto: CreateClientDto, fs: seq<Field>): Body {
    if fs == [] then map[]
    else
      var rest := BodyOf(dto, fs[1..]);
      if FieldValue(dto, fs[0]).Undefined? then rest else rest[PropertyName(fs[0]) := FieldValue(dto, fs[0])]
  }

  /** Every rule of the DTO holds of the typed record `dto`. */
  function IsValidCreateClient(dto: CreateClientDto, isEmail: string -> bool): (ok: bool)
    ensures ok ==> |dto.siret| == 14 && |dto.postalCode| == 5
    ensures ok ==>
      || (10 <= |dto.phone| <= 14 && dto.phone[0] == '0')
      || (12 <= |dto.phone| <= 16 && dto.phone[..3] == "+33")
  {
    MatchDigitsIff(dto.siret, 14);
    MatchDigitsIff(dto.postalCode, 5);
    if IsFrenchPhone(dto.phone) then
      FrenchPhoneLength(dto.phone);
      && IsSiret(dto.siret)
      && dto.name != "" && |dto.name| <= 255
      && dto.address != "" && |dto.address| <= 255
      && IsPostalCode(dto.postalCode)
      && dto.city != "" && |dto.city| <= 100
      && isEmail(dto.email)
      && (dto.collectivityCode.Some? ==> |dto.collectivityCode.value| <= 15)
      && (dto.budgetCode.Some? ==> |dto.budgetCode.value| <= 15)
    else
      false
  }

  /** The DTO built from a body whose every declared property passed its rules. */
  function BuildDto(body: Body, isEmail: string -> bool): (dto: CreateClientDto)
    requires forall f :: FieldAccepts(f, Lookup(body, PropertyName(f)), isEmail)
  {
    var v := (f: Field) => Lookup(body, PropertyName(f));
    assert FieldAccepts(ClientTypeField, v(ClientTypeField), isEmail);
    assert FieldAccepts(SiretField, v(SiretField), isEmail);
    assert FieldAccepts(NameField, v(NameField), isEmail);
    assert FieldAccepts(AddressField, v(AddressField), isEmail);
    assert FieldAccepts(PostalCodeField, v(PostalCodeField), isEmail);
    assert FieldAccepts(CityField, v(CityField), isEmail);
    assert FieldAccepts(EmailField, v(EmailField), isEmail);
    assert FieldAccepts(PhoneField, v(PhoneField), isEmail);
    assert FieldAccepts(AccountingSystemField, v(AccountingSystemField), isEmail);
    assert FieldAccepts(CollectivityCodeField, v(CollectivityCodeField), isEmail);
    assert FieldAccepts(BudgetCodeField, v(BudgetCodeField), isEmail);
    CreateClientDto(
      ParseClientType(v(ClientTypeField).s).value,
      v(SiretField).s,
      v(NameField).s,
      v(AddressField).s,
      v(PostalCodeField).s,
      v(CityField).s,
      v(EmailField).s,
      v(PhoneField).s,
      if IsNullish(v(AccountingSystemField)) then None
      else Some(ParseAccountingSystem(v(AccountingSystemField).s).value),
      if IsNullish(v(CollectivityCodeField)) then None else Some(v(CollectivityCodeField).s),
      if IsNullish(v(BudgetCodeField)) then None else Some(v(BudgetCodeField).s))
  }

  /** One reason to reject a body. */
  datatype Violation =
    | NotWhitelisted(property: string)   // `forbidNonWhitelisted`
    | Invalid(field: Field)              // a rule of a declared property fails

  /** Every reason the validation pipe has to reject `body`. */
  function Violations(body: Body, isEmail: string -> bool): set<Violation> {
    (set key | key in body && FieldOf(key).None? :: NotWhitelisted(key))
    + (set f | f in AllFields && !FieldAccepts(f, Lookup(body, PropertyName(f)), isEmail) :: Invalid(f))
  }

  /** The body is whitelisted and every declared property passes its rules. */
  ghost predicate Acceptable(body: Body, isEmail: string -> bool) {
    && (forall key :: key in body ==> FieldOf(key).Some?)
    && (forall f :: FieldAccepts(f, Lookup(body, PropertyName(f)), isEmail))
  }

  /**
   * The validation pipe. It accepts `body` exactly when every property is
   * declared by the DTO and every declared property passes its rules; it then
   * yields a valid DTO that holds the body's present values and nothing
   * else. It otherwise fails with every violation it found.
   */
  function Validate(body: Body, isEmail: string -> bool): (r: Result<CreateClientDto, set<Violation>>)
    ensures r.Success? <==> Acceptable(body, isEmail)
    ensures r.Failure? ==> r.error != {} && r.error == Violations(body, isEmail)
    ensures r.Success? ==> IsValidCreateClient(r.value, isEmail)
    ensures r.Success? ==> ToBody(r.value).Keys <= body.Keys
    ensures r.Success? ==> forall key :: key in body && !IsNullish(body[key]) ==>
      key in ToBody(r.value) && ToBody(r.value)[key] == body[key]
    ensures r.Success? ==> forall f :: FieldValue(r.value, f) == PresentValue(body, f)
  {
    var violations := Violations(body, isEmail);
    ViolationsIff(body, isEmail);
    if violations == {} then
      var dto := BuildDto(body, isEmail);
      BuildDtoAgrees(body, isEmail);
      Success(dto)
    else
      Failure(violations)
  }

  /** There is no violation exactly when the body is acceptable. */
  lemma ViolationsIff(body: Body, isEmail: string -> bool)
    ensures Violations(body, isEmail) == {} <==> Acceptable(body, isEmail)
  {
    var vs := Violations(body, isEmail);
    if vs == {} {
      forall key | key in body ensures FieldOf(key).Some? {
        assert NotWhitelisted(key) !in vs;
      }
      forall f ensures FieldAccepts(f, Lookup(body, PropertyName(f)), isEmail) {
        assert f in AllFields by { FieldInAllFields(f); }
        assert Invalid(f) !in vs;
      }
    } else {
      var v :| v in vs;
      if v.NotWhitelisted? {
        assert v.property in body && FieldOf(v.property).None?;
      } else {
        assert !FieldAccepts(v.field, Lookup(body, PropertyName(v.field)), isEmail);
      }
    }
  }

  lemma FieldInAllFields(f: Field)
    ensures f in AllFields
  {
  }

  /** Distinct properties have distinct names. */
  lemma PropertyNameInjective(f: Field, g: Field)
    ensures PropertyName(f) == PropertyName(g) ==> f == g
  {
    FieldOfName(f);
    FieldOfName(g);
  }

  lemma FieldOfName(f: Field)
    ensures FieldOf(PropertyName(f)) == Some(f)
  {
    match f
    case ClientTypeField =>
    case SiretField =>
    case NameField =>
    case AddressField =>
    case PostalCodeField =>
    case CityField =>
    case EmailField =>
    case PhoneField =>
    case AccountingSystemField =>
    case CollectivityCodeField =>
    case BudgetCodeField =>
  }

  lemma {:induction false} BodyOfLookup(dto: CreateClientDto, fs: seq<Field>, f: Field)
    ensures Lookup(BodyOf(dto, fs), PropertyName(f)) == if f in fs then FieldValue(dto, f) else Undefined
    ensures forall key :: key in BodyOf(dto, fs) ==> FieldOf(key).Some? && !BodyOf(dto, fs)[key].Undefined?
  {
    if fs != [] {
      BodyOfLookup(dto, fs[1..], f);
      PropertyNameInjective(f, fs[0]);
      FieldOfName(fs[0]);
      assert f in fs <==> f == fs[0] || f in fs[1..];
    }
  }

  /** `ToBody` holds property `f` of `dto` under its name, and only declared properties. */
  lemma ToBodyLookup(dto: CreateClientDto, f: Field)
    ensures Lookup(ToBody(dto), PropertyName(f)) == FieldValue(dto, f)
    ensures forall key :: key in ToBody(dto) ==> FieldOf(key).Some? && !ToBody(dto)[key].Undefined?
  {
    FieldInAllFields(f);
    BodyOfLookup(dto, AllFields, f);
  }

  /** The typed rules hold exactly when every property of the DTO passes its rules. */
  lemma ValidIffFieldsAccept(dto: CreateClientDto, isEmail: string -> bool)
    ensures IsValidCreateClient(dto, isEmail) <==> forall f :: FieldAccepts(f, FieldValue(dto, f), isEmail)
  {
    if IsValidCreateClient(dto, isEmail) {
      forall f ensures FieldAccepts(f, FieldValue(dto, f), isEmail) {
        if f == ClientTypeField {
          ClientTypeRoundTrip(dto.clientType);
        } else if f == AccountingSystemField && dto.accountingSystem.Some? {
          AccountingSystemRoundTrip(dto.accountingSystem.value);
        }
      }
    }
    if forall f :: FieldAccepts(f, FieldValue(dto, f), isEmail) {
      assert FieldAccepts(SiretField, FieldValue(dto, SiretField), isEmail);
      assert FieldAccepts(NameField, FieldValue(dto, NameField), isEmail);
      assert FieldAccepts(AddressField, FieldValue(dto, AddressField), isEmail);
      assert FieldAccepts(PostalCodeField, FieldValue(dto, PostalCodeField), isEmail);
      assert FieldAccepts(CityField, FieldValue(dto, CityField), isEmail);
      assert FieldAccepts(EmailField, FieldValue(dto, EmailField), isEmail);
      assert FieldAccepts(PhoneField, FieldValue(dto, PhoneField), isEmail);
      assert FieldAccepts(CollectivityCodeField, FieldValue(dto, CollectivityCodeField), isEmail);
      assert FieldAccepts(BudgetCodeField, FieldValue(dto, BudgetCodeField), isEmail);
    }
  }

  /** Property `f` of the built DTO is the body's value, or absent when the body's is absent. */
  lemma BuildDtoValue(body: Body, isEmail: string -> bool, f: Field)
    requires forall g :: FieldAccepts(g, Lookup(body, PropertyName(g)), isEmail)
    ensures FieldValue(BuildDto(body, isEmail), f) == PresentValue(body, f)
  {
    assert FieldAccepts(f, Lookup(body, PropertyName(f)), isEmail);
  }

  lemma BuildDtoAgrees(body: Body, isEmail: string -> bool)
    requires Acceptable(body, isEmail)
    ensures IsValidCreateClient(BuildDto(body, isEmail), isEmail)
    ensures ToBody(BuildDto(body, isEmail)).Keys <= body.Keys
    ensures forall key :: key in body && !IsNullish(body[key]) ==>
      key in ToBody(BuildDto(body, isEmail)) && ToBody(BuildDto(body, isEmail))[key] == body[key]
    ensures forall f :: FieldValue(BuildDto(body, isEmail), f) == PresentValue(body, f)
  {
    var dto := BuildDto(body, isEmail);
    var out := ToBody(dto);
    forall f ensures FieldAccepts(f, FieldValue(dto, f), isEmail)
      && FieldValue(dto, f) == PresentValue(body, f)
    {
      BuildDtoValue(body, isEmail, f);
    }
    ValidIffFieldsAccept(dto, isEmail);
    ToBodyLookup(dto, ClientTypeField);
    forall key | key in out ensures key in body {
      var f := FieldOf(key).value;
      ToBodyLookup(dto, f);
      BuildDtoValue(body, isEmail, f);
    }
    forall key | key in body && !IsNullish(body[key]) ensures key in out && out[key] == body[key] {
      var f := FieldOf(key).value;
      ToBodyLookup(dto, f);
      BuildDtoValue(body, isEmail, f);
    }
  }

  /** Two DTOs whose properties all have the same values are equal. */
  lemma FieldValuesDetermine(a: CreateClientDto, b: CreateClientDto)
    requires forall f :: FieldValue(a, f) == FieldValue(b, f)
    ensures a == b
  {
    assert FieldValue(a, ClientTypeField) == FieldValue(b, ClientTypeField);
    ClientTypeRoundTrip(a.clientType);
    ClientTypeRoundTrip(b.clientType);
    assert FieldValue(a, AccountingSystemField) == FieldValue(b, AccountingSystemField);
    if a.accountingSystem.Some? && b.accountingSystem.Some? {
      AccountingSystemRoundTrip(a.accountingSystem.value);
      AccountingSystemRoundTrip(b.accountingSystem.value);
    }
    assert FieldValue(a, SiretField) == FieldValue(b, SiretField);
    assert FieldValue(a, NameField) == FieldValue(b, NameField);
    assert FieldValue(a, AddressField) == FieldValue(b, AddressField);
    assert FieldValue(a, PostalCodeField) == FieldValue(b, PostalCodeField);
    assert FieldValue(a, CityField) == FieldValue(b, CityField);
    assert FieldValue(a, EmailField) == FieldValue(b, EmailField);
    assert FieldValue(a, PhoneField) == FieldValue(b, PhoneField);
    assert FieldValue(a, CollectivityCodeField) == FieldValue(b, CollectivityCodeField);
    assert FieldValue(a, BudgetCodeField) == FieldValue(b, BudgetCodeField);
  }

  /** The body `ToBody(dto)` holds each property of `dto` and nothing undeclared. */
  lemma ToBodyFields(dto: CreateClientDto)
    ensures forall f :: Lookup(ToBody(dto), PropertyName(f)) == FieldValue(dto, f)
    ensures forall key :: key in ToBody(dto) ==> FieldOf(key).Some?
  {
    forall f ensures Lookup(ToBody(dto), PropertyName(f)) == FieldValue(dto, f) {
      ToBodyLookup(dto, f);
    }
    ToBodyLookup(dto, ClientTypeField);
  }

  /** Sending a valid DTO as a body and validating it gives the same DTO back. */
  lemma ValidRoundTrip(dto: CreateClientDto, isEmail: string -> bool)
    requires IsValidCreateClient(dto, isEmail)
    ensures Validate(ToBody(dto), isEmail) == Success(dto)
  {
    var body := ToBody(dto);
    assert Acceptable(body, isEmail) by {
      ToBodyFields(dto);
      ValidIffFieldsAccept(dto, isEmail);
    }
    ValidateAccepts(body, isEmail);
    var back := BuildDto(body, isEmail);
    forall f ensures FieldValue(back, f) == FieldValue(dto, f) {
      var v := Lookup(body, PropertyName(f));
      BuildDtoValue(body, isEmail, f);
      ToBodyLookup(dto, f);
      assert v == FieldValue(dto, f);
      FieldValueNotNull(dto, f);
    }
    FieldValuesDetermine(back, dto);
  }

  lemma ValidateAccepts(body: Body, isEmail: string -> bool)
    requires Acceptable(body, isEmail)
    ensures Validate(body, isEmail) == Success(BuildDto(body, isEmail))
  {
    ViolationsIff(body, isEmail);
  }

  /** Sending a DTO that breaks a rule as a body gets it rejected. */
  lemma InvalidRejected(dto: CreateClientDto, isEmail: string -> bool)
    requires !IsValidCreateClient(dto, isEmail)
    ensures Validate(ToBody(dto), isEmail).Failure?
  {
    var body := ToBody(dto);
    ToBodyFields(dto);
    ValidIffFieldsAccept(dto, isEmail);
    var g :| !FieldAccepts(g, FieldValue(dto, g), isEmail);
    assert !FieldAccepts(g, Lookup(body, PropertyName(g)), isEmail);
  }

  lemma ClientTypeRoundTrip(t: ClientType)
    ensures ParseClientType(ClientTypeName(t)) == Some(t)
  {
  }

  lemma AccountingSystemRoundTrip(a: AccountingSystem)
    ensures ParseAccountingSystem(AccountingSystemName(a)) == Some(a)
  {
  }

  /**
   * The DTO declares neither `id` nor `status`: a body carrying either is
   * rejected, so a validated request never sets a status.
   */
  lemma StatusAndIdRejected(body: Body, isEmail: string -> bool)
    requires "status" in body || "id" in body
    ensures Validate(body, isEmail).Failure?
    ensures "status" in body ==> NotWhitelisted("status") in Validate(body, isEmail).error
    ensures "id" in body ==> NotWhitelisted("id") in Validate(body, isEmail).error
  {
    assert FieldOf("status").None? && FieldOf("id").None?;
  }

  /** A SIRET that is not fourteen digits is reported against the `siret` property. */
  lemma BadSiretReported(body: Body, isEmail: string -> bool)
    requires Lookup(body, "siret").Str? && !IsSiret(Lookup(body, "siret").s)
    ensures Validate(body, isEmail).Failure?
    ensures Invalid(SiretField) in Validate(body, isEmail).error
  {
    assert !FieldAccepts(SiretField, Lookup(body, PropertyName(SiretField)), isEmail);
  }

  /** The example SIRET documented on the DTO is accepted. */
  lemma SiretExample()
    ensures IsSiret("21920063500014")
  {
    var s := "21920063500014";
    assert forall i | 0 <= i < |s| :: IsAsciiDigit(s[i]);
    MatchDigitsIff(s, 14);
  }

  /** A SIRET of three digits is rejected. */
  lemma ShortSiretRejected()
    ensures !IsSiret("123")
  {
    MatchDigitsIff("123", 14);
  }

  /** The example postal code documented on the DTO is accepted. */
  lemma PostalCodeExample()
    ensures IsPostalCode("92210")
  {
    MatchDigitsIff("92210", 5);
  }

  /** The example phone number documented on the DTO is accepted. */
  lemma PhoneExample()
    ensures IsFrenchPhone("+33146021234")
  {
    var s := "+33146021234";
    assert s[..3] == "+33";
    var groups := ["46", "02", "12", "34"];
    assert IsGroupSpelling("46021234", 4, groups) by {
      assert Concat(groups) == "46021234";
    }
    MatchGroupsComplete("46021234", 4, groups);
    assert s[3..][1..] == "46021234";
  }
}
