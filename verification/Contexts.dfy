/** The two audiences of `server/src/auth/context.rs`. */
module Contexts {
  import opened Prelude

  /** `AudienceTag` */
  datatype Tag = Vault | Admin

  function Other(tag: Tag): Tag { if tag == Vault then Admin else Vault }

  function JtiKeyByte(tag: Tag): Byte { if tag == Vault then 1 else 2 }
}
