/** What a probe of a peer's name can prove. */
module Names {
  datatype NameVerdict = Gone | ExistsOrUnknown
}
