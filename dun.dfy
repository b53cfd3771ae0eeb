/** The label record shared by every part of the application. */
module Dun {
  import opened Wrappers

  /**
   * One logistics (DUN-14) label. `weightKg` stays text so that a decimal
   * comma is kept as typed; `lot` feeds GS1 AI (10), `expiry` AI (17).
   */
  datatype DunLabel = DunLabel(
    sku: string,
    gtin14: string,
    product: string,
    qtyPerBox: int,
    boxSize: string,
    weightKg: string,
    lot: Option<string>,
    expiry: Option<string>)

  /** The sample label the pages show before anything is imported. */
  const DunSample: DunLabel := DunLabel(
    "D24-ALV26278",
    "27898971826272",
    "Pasta de Dente Relax - Lim\U{E3}o e Canela Vegano Alva 90g",
    24,
    "32X25X16",
    "3,095",
    Some("L2409-A"),
    Some("2026-03-31"))
}
