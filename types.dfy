/**
  Constant tables of the moving-quote application: truck sizes with their
  floor dimensions, block capacities and base prices, the per-kilometre rate,
  the furniture catalog and the list of communes of the Santiago region.
 */
module Types {

  datatype Option<T> = None | Some(value: T)

  /** The four truck sizes, in the fixed order S, M, L, XL. */
  datatype TruckSize = S | M | L | XL

  /** The size list that the repacking policy walks through. */
  const Sizes: seq<TruckSize> := [S, M, L, XL]

  /** Position of a size in `Sizes` (what `sizes.indexOf(size)` yields). */
  function SizeIndex(s: TruckSize): (i: nat)
    ensures i < |Sizes| && Sizes[i] == s
  {
    match s
    case S => 0
    case M => 1
    case L => 2
    case XL => 3
  }

  /** Side of the square floor grid of a truck. */
  function Dimension(s: TruckSize): (n: nat)
    ensures 6 <= n <= 12
  {
    match s
    case S => 6
    case M => 8
    case L => 10
    case XL => 12
  }

  /** Block capacity of a truck (TRUCK_CAPACITY). */
  function Capacity(s: TruckSize): (c: nat)
    ensures c == Dimension(s) * Dimension(s)
  {
    match s
    case S => 36
    case M => 64
    case L => 100
    case XL => 144
  }

  /** Base price of a truck in pesos (TRUCK_BASE_PRICES). */
  function BasePrice(s: TruckSize): (p: nat)
    ensures 45000 <= p <= 180000
  {
    match s
    case S => 45000
    case M => 85000
    case L => 130000
    case XL => 180000
  }

  /** Price per kilometre of route (PRICE_PER_KM). */
  const PricePerKm: nat := 1500

  /** A catalog furniture type. The catalog table carries no shape; the
      packer receives shapes with the items it is given. */
  datatype CatalogEntry = CatalogEntry(id: string, name: string, blocks: int)

  const Catalog: seq<CatalogEntry> := [
    CatalogEntry("box", "Caja Standard", 1),
    CatalogEntry("nightstand", "Velador", 1),
    CatalogEntry("microwave", "Horno / Microondas", 1),
    CatalogEntry("chair", "Silla de Oficina", 2),
    CatalogEntry("fridge", "Refrigerador", 2),
    CatalogEntry("washer", "Lavadora", 3),
    CatalogEntry("bike", "Bicicleta", 3),
    CatalogEntry("tv", "Televisor 65\"", 3),
    CatalogEntry("desk", "Escritorio", 4),
    CatalogEntry("sofa", "Sofá 3 Cuerpos", 6),
    CatalogEntry("bed", "Cama King", 8),
    CatalogEntry("wardrobe", "Ropero / Closet", 10),
    CatalogEntry("dining", "Comedor (Mesa + 6 Sillas)", 12)
  ]

  const Comunas: seq<string> := [
    "Santiago Centro", "Providencia", "Las Condes", "Ñuñoa", "Vitacura",
    "La Reina", "Lo Barnechea", "Macul", "Peñalolén", "La Florida",
    "Maipú", "Estación Central", "San Miguel", "San Joaquín", "Independencia",
    "Recoleta", "Huechuraba", "Quilicura", "Pudahuel", "Puente Alto"
  ]

  /** Length of a string as JavaScript's `.length` counts it: characters
      outside the Basic Multilingual Plane take two UTF-16 code units. */
  function Utf16Length(s: string): (n: nat)
    ensures |s| <= n <= 2 * |s|
    ensures (forall i :: 0 <= i < |s| ==> s[i] as int < 0x10000) ==> n == |s|
  {
    if |s| == 0 then 0
    else Utf16Length(s[..|s| - 1]) + (if s[|s| - 1] as int < 0x10000 then 1 else 2)
  }

  /** The UTF-16 code units of one character: the character itself inside
      the Basic Multilingual Plane, otherwise a high surrogate followed by
      a low surrogate from which the character can be read back. */
  function Utf16Encode(c: char): (u: seq<int>)
    ensures c as int < 0x10000 ==> u == [c as int]
    ensures c as int >= 0x10000 ==>
      |u| == 2 && 0xD800 <= u[0] < 0xDC00 && 0xDC00 <= u[1] < 0xE000 &&
      c as int == 0x10000 + (u[0] - 0xD800) * 0x400 + (u[1] - 0xDC00)
  {
    if c as int < 0x10000 then [c as int]
    else
      var v := c as int - 0x10000;
      [0xD800 + v / 0x400, 0xDC00 + v % 0x400]
  }

  /** The code units JavaScript sees in a string, as many as its `.length`. */
  function Utf16Units(s: string): (u: seq<int>)
    ensures |u| == Utf16Length(s)
  {
    if |s| == 0 then [] else Utf16Units(s[..|s| - 1]) + Utf16Encode(s[|s| - 1])
  }

  /** Dimensions, capacities and base prices all strictly increase from S
      to XL. */
  lemma TablesIncrease(s: TruckSize, t: TruckSize)
    requires SizeIndex(s) < SizeIndex(t)
    ensures Dimension(s) < Dimension(t)
    ensures Capacity(s) < Capacity(t)
    ensures BasePrice(s) < BasePrice(t)
  {
  }

  /** Every catalog entry has its own id and weighs at least one block. */
  lemma CatalogWellFormed()
    ensures |Catalog| == 13
    ensures forall i :: 0 <= i < |Catalog| ==> Catalog[i].blocks >= 1
    ensures forall i, j :: 0 <= i < j < |Catalog| ==> Catalog[i].id != Catalog[j].id
  {
  }

  /** The commune list holds twenty distinct names. */
  lemma ComunasDistinct()
    ensures |Comunas| == 20
    ensures forall i, j :: 0 <= i < j < |Comunas| ==> Comunas[i] != Comunas[j]
  {
  }
}
