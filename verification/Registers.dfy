/** The register catalogue's entries and what the device's words decode to. */
module Registers {
  import opened Options

  /** A 16-bit word on the wire. */
  type Word = x: int | 0 <= x < 0x1_0000

  /** The encodings the decoder knows; the empty string is read as U16, anything else is Unknown. */
  datatype DataType = U16 | S16 | I16 | U32 | S32 | I32 | BYTE | BIT | DAT | STR | Empty | Unknown(name: string)

  datatype Register = Register(
    key: string,
    address: Word,
    name: string,
    length: int,
    typ: DataType,
    unit: string,
    scale: int,
    precision: Option<int>,
    mqtt: string,
    group: string,
    writable: bool,
    items: Option<map<int, string>>,
    itemsDE: map<int, string>)
  {
    /** A real holding register, not one computed by the coordinator. */
    predicate IsModbus() {
      address != 0 || key == "0"
    }

    /** The output key: the MQTT suffix when set, the name as the fallback. */
    function OutputKey(): string {
      if mqtt != "" then mqtt else name
    }

    /** The value items; a register without any ranges over none. */
    function Items(): map<int, string> {
      if items == None then map[] else items.value
    }

    /** The German label of each code that has one, the English one of every other. */
    function LocalizedValueItems(lang: string): Option<map<int, string>> {
      if items == None then None
      else if lang != "de" || itemsDE == map[] then items
      else Some(map c | c in items.value :: if c in itemsDE && itemsDE[c] != "" then itemsDE[c] else items.value[c])
    }
  }
}
