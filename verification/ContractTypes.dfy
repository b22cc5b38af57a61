/** The contract classes of crates/domain/src/enums/contract_type.rs. */
module ContractTypes {
  datatype ContractType = Token | Other | Nft | Fungible

  /** A verdict that is cached and acted on: any but `Other`. */
  predicate IsDefinitive(ty: ContractType)
    ensures IsDefinitive(ty) <==> ty != Other
  {
    ty.Token? || ty.Nft? || ty.Fungible?
  }
}
