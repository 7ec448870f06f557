/**
 Memory addresses.  The modelled structures refer to each other by address, as the C code does:
 memory is a map from addresses to records, updated in place, and an address that was released is
 not in the map.  Reading through a dangling pointer is therefore a proof failure.
 */
module Addresses {
  type Addr = int

  const NULL: Addr := 0
}
