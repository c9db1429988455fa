/**
 * The client table and its uniqueness-checked create operation. The table is
 * keyed by a generated identifier and no two of its records share a SIRET.
 */
module Clients {
  import opened Wrappers
  import opened JsText
  import opened ClientDto
  import opened HttpExceptions
  import opened ApiMessages

  /** Identifier the store generates for a new record. */
  type ClientId = nat

  datatype ClientStatus = DRAFT | PENDING | ACTIVE | SUSPENDED | ARCHIVED

  /** A stored client: the DTO's properties plus its identifier and status. */
  datatype Client = Client(
    id: ClientId,
    clientType: ClientType,
    siret: string,
    name: string,
    address: string,
    postalCode: string,
    city: string,
    email: string,
    phone: string,
    accountingSystem: Option<AccountingSystem>,
    collectivityCode: Option<string>,
    budgetCode: Option<string>,
    status: ClientStatus)

  /** What creation returns to the caller: the identifier and the name, nothing else. */
  datatype ClientResponse = ClientResponse(id: ClientId, name: string)

  /**
   * `email.toLowerCase().trim()`: the lower-cased address stripped of the
   * whitespace around it. The result holds no upper-case ASCII letter, neither
   * starts nor ends with whitespace, and is a slice of the lower-cased input
   * with only whitespace cut away.
   */
  function NormalizeEmail(email: string): (r: string)
    ensures IsLowerAscii(r)
    ensures IsTrimmed(r)
    ensures exists lo :: 0 <= lo <= |email| - |r| && IsTrimSlice(ToLowerAscii(email), lo, r)
  {
    var lower := ToLowerAscii(email);
    TrimKeepsLower(lower);
    Trim(lower)
  }

  /** Normalising an address that is already normalised leaves it unchanged. */
  lemma NormalizeEmailIdempotent(email: string)
    ensures NormalizeEmail(NormalizeEmail(email)) == NormalizeEmail(email)
  {
    var once := NormalizeEmail(email);
    LowerIsFixed(once);
    TrimmedIsFixed(once);
  }

  /** The address of the creation example is stored lower-cased without its trailing space. */
  lemma NormalizeEmailExample()
    ensures NormalizeEmail("Contact@Mairie-Saint-Cloud.FR ") == "contact@mairie-saint-cloud.fr"
  {
    var lower := "contact@mairie-saint-cloud.fr ";
    assert ToLowerAscii("Contact@Mairie-Saint-Cloud.FR ") == lower;
    assert lower == "contact@mairie-saint-cloud.fr" + [' '];
    TrimTrailingSpace("contact@mairie-saint-cloud.fr", ' ');
  }

  /** The DTO properties of a stored record. */
  function AsDto(c: Client): CreateClientDto {
    CreateClientDto(c.clientType, c.siret, c.name, c.address, c.postalCode, c.city,
                    c.email, c.phone, c.accountingSystem, c.collectivityCode, c.budgetCode)
  }

  /**
   * The record inserted for `dto` under identifier `id`: the DTO spread
   * unchanged except for the normalised e-mail address, with status DRAFT.
   */
  function NewClient(id: ClientId, dto: CreateClientDto): (c: Client)
    ensures c.id == id && c.status == DRAFT
    ensures AsDto(c) == dto.(email := NormalizeEmail(dto.email))
  {
    Client(id, dto.clientType, dto.siret, dto.name, dto.address, dto.postalCode, dto.city,
           NormalizeEmail(dto.email), dto.phone, dto.accountingSystem, dto.collectivityCode,
           dto.budgetCode, DRAFT)
  }

  /** No two records of `table` share a SIRET. */
  ghost predicate UniqueSirets(table: map<ClientId, Client>) {
    forall a, b :: a in table && b in table && table[a].siret == table[b].siret ==> a == b
  }

  /** The SIRETs present in `table`. */
  ghost function SiretsOf(table: map<ClientId, Client>): set<string> {
    set id | id in table :: table[id].siret
  }

  /**
   * Records are filed under their own identifier, every identifier is below
   * the next one to be generated, and no two records share a SIRET.
   */
  ghost predicate WellFormed(table: map<ClientId, Client>, nextId: ClientId) {
    && (forall id :: id in table ==> table[id].id == id && id < nextId)
    && UniqueSirets(table)
  }

  /**
   * Filing a record whose SIRET is new under the next identifier keeps the
   * table well formed and adds exactly that SIRET.
   */
  lemma InsertKeepsSiretsUnique(table: map<ClientId, Client>, nextId: ClientId, c: Client)
    requires WellFormed(table, nextId)
    requires c.id == nextId && c.siret !in SiretsOf(table)
    ensures c.id !in table
    ensures WellFormed(table[c.id := c], nextId + 1)
    ensures SiretsOf(table[c.id := c]) == SiretsOf(table) + {c.siret}
  {
    var t := table[c.id := c];
    forall a, b | a in t && b in t && t[a].siret == t[b].siret ensures a == b {
    }
    forall x | x in SiretsOf(t) ensures x in SiretsOf(table) + {c.siret} {
      var id :| id in t && t[id].siret == x;
      if id != c.id {
        assert table[id].siret == x;
      }
    }
    forall x | x in SiretsOf(table) + {c.siret} ensures x in SiretsOf(t) {
      if x == c.siret {
        assert t[c.id].siret == x;
      } else {
        var id :| id in table && table[id].siret == x;
        assert t[id].siret == x;
      }
    }
  }

  /** The client table with its identifier generator. */
  class ClientsService {
    var clients: map<ClientId, Client>
    var nextId: ClientId

    ghost predicate Valid()
      reads this
    {
      WellFormed(clients, nextId)
    }

    constructor ()
      ensures Valid()
      ensures clients == map[]
    {
      clients := map[];
      nextId := 0;
    }

    /** `findUnique({where: {siret}})`: the record holding `siret`, if any. */
    function FindBySiret(siret: string): (r: Option<Client>)
      reads this
      requires Valid()
      ensures r.Some? <==> siret in SiretsOf(clients)
      ensures r.Some? ==> r.value.id in clients && clients[r.value.id] == r.value && r.value.siret == siret
    {
      if exists id | id in clients :: clients[id].siret == siret then
        var id :| id in clients && clients[id].siret == siret;
        Some(clients[id])
      else
        None
    }

    /**
     * `ClientsService.create`. A SIRET already present fails with the
     * conflict and leaves the table as it was; otherwise exactly one record
     * is added, under a fresh identifier, holding the DTO with the e-mail
     * address normalised and status DRAFT, and only its identifier and name
     * are returned. Either way the SIRET is present afterwards and the SIRETs
     * stay unique.
     */
    method Create(dto: CreateClientDto) returns (r: Result<ClientResponse, Exception>)
      requires Valid()
      modifies this
      ensures Valid()
      ensures r.Failure? <==> dto.siret in SiretsOf(old(clients))
      ensures r.Failure? ==> r.error == ConflictException(ClientSiretExists) && unchanged(this)
      ensures r.Success? ==>
        && r.value.id !in old(clients)
        && clients == old(clients)[r.value.id := NewClient(r.value.id, dto)]
        && r.value == ClientResponse(r.value.id, dto.name)
      ensures dto.siret in SiretsOf(clients)
      ensures SiretsOf(old(clients)) <= SiretsOf(clients)
    {
      var existing := FindBySiret(dto.siret);
      if existing.Some? {
        return Failure(ConflictException(ClientSiretExists));
      }
      var client := NewClient(nextId, dto);
      InsertKeepsSiretsUnique(clients, nextId, client);
      clients := clients[nextId := client];
      nextId := nextId + 1;
      r := Success(ClientResponse(client.id, client.name));
    }
  }

  /**
   * Idempotent rejection: once a create with a SIRET has run, successfully or
   * not, a later create with that SIRET fails with the same conflict and
   * leaves the table as the first call left it.
   */
  method CreateTwice(store: ClientsService, first: CreateClientDto, second: CreateClientDto)
    returns (r1: Result<ClientResponse, Exception>, r2: Result<ClientResponse, Exception>)
    requires store.Valid()
    requires second.siret == first.siret
    modifies store
    ensures store.Valid()
    ensures r2 == Failure(ConflictException(ClientSiretExists))
    ensures r1.Success? ==> store.clients == old(store.clients)[r1.value.id := NewClient(r1.value.id, first)]
    ensures r1.Failure? ==> store.clients == old(store.clients)
  {
    r1 := store.Create(first);
    r2 := store.Create(second);
  }
}
