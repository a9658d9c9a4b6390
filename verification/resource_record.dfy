/**
 * The record types a response can carry, as far as this codec uses them.
 * Their numeric codes are defined outside the codec and are not part of
 * this model; only the fourteen names are.
 */
module ResourceRecords {

  datatype ResourceRecordType =
    | A | AAAA | CNAME | MX | NS | MD | MF | MB | MG | MR | PTR | SOA | SRV | TXT

  /** The four types whose RDATA the serialiser knows how to write. */
  predicate HasEncoding(t: ResourceRecordType)
  {
    t.A? || t.AAAA? || t.CNAME? || t.MX?
  }
}
