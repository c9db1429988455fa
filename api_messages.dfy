/** The fixed user-facing messages used by the modelled operations. */
module ApiMessages {

  /** Message of the conflict raised when a SIRET is already registered. */
  const ClientSiretExists: string := "A client with this SIRET already exists"
}
