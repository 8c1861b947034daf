/** The regulatory tiers a batch can be classified into. */
module Tiers {
  datatype Tier = Standard | Elevated | Prohibited | Undetermined
}
