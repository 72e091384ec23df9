/** Asset metadata, and the memo of scale factors every amount module keeps. */
module Assets {
  import opened Digits
  import opened Prelude

  datatype DisplayFormat = Decimal | Integer

  datatype AssetMetadata =
    AssetMetadata(id: string, symbol: string, assetLabel: string, decimals: nat, displayFormat: Option<DisplayFormat>)

  datatype RoundingMode = HalfUp | Truncate | Ceil | Floor

  /** The memo behind `getScale`: a map from a decimal count to its power of ten. */
  class ScaleCache {
    var entries: map<nat, nat>

    ghost predicate Valid()
      reads this
    {
      forall d :: d in entries ==> entries[d] == Pow10(d)
    }

    constructor ()
      ensures Valid() && entries == map[]
    {
      entries := map[];
    }

    method GetScale(decimals: nat) returns (scale: nat)
      requires Valid()
      modifies this
      ensures Valid()
      ensures scale == Pow10(decimals)
      ensures entries == old(entries)[decimals := scale]
    {
      if decimals in entries {
        scale := entries[decimals];
      } else {
        scale := Pow10(decimals);
        entries := entries[decimals := scale];
      }
    }
  }
}
