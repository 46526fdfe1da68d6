/** The value types the modelled component shares with the rest of the application. */
module Types {

  /** The screens of the application. */
  datatype View =
    | Home
    | Consultation
    | Analysis
    | ContractGenerator
    | Radar
    | Research
    | Resources
    | Contact

  /** An entry of the directory of official legal websites. */
  datatype OfficialResource = OfficialResource(name: string, url: string, category: string)
}
