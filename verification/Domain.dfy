/** Chain families and the signature scheme each one uses. */
module Domain {
  import opened Wrappers

  datatype Scheme = Ecdsa | Eddsa

  datatype Chain = Evm | Solana | Aptos | Sui | Bitcoin
  {
    function Scheme(): Scheme {
      match this
      case Evm | Bitcoin => Ecdsa
      case Solana | Aptos | Sui => Eddsa
    }

    static function FromProto(v: int): Option<Chain> {
      match v
      case 1 => Some(Evm)
      case 2 => Some(Solana)
      case 3 => Some(Aptos)
      case 4 => Some(Sui)
      case 5 => Some(Bitcoin)
      case _ => None
    }
  }
}
