/** The delivery record as it sits in the `records` object store. */
module Records {
  import opened Common

  /** One fill-up, as saved by the entry screen. The store key `id` is kept
      apart (see `Stored`), because restoring a backup removes it.
      `exported` stands for the JavaScript truthiness of the field: a record
      written before the field existed reads as `false`. `qty`, `amount`,
      `tax` and `total` are JavaScript numbers, modelled as integers. */
  datatype Delivery = Delivery(
    custCode: string,
    custName: string,
    date: string,
    time: string,
    tankId: string,
    tankName: string,
    qty: int,
    unitPrice: int,
    amount: int,
    tax: int,
    total: int,
    exported: bool,
    exportedDate: Option<string>)

  /** A value as a cursor yields it: the record together with its key. */
  datatype Stored = Stored(id: nat, rec: Delivery)

  /** The records of a listing, keys dropped. */
  function Values(l: seq<Stored>): seq<Delivery> {
    seq(|l|, i requires 0 <= i < |l| => l[i].rec)
  }
}
