/**
 * What `goblin::Object::parse` hands the pipeline steps. The PE parser itself is a foreign
 * library; only the fields the steps read are kept.
 */
module Goblin {
  import opened Wrappers

  type u16 = x: nat | x < 0x1_0000
  type u32 = x: nat | x < 0x1_0000_0000

  /** One entry of the PE section table: the 8-byte name and where its raw data lies in the file. */
  datatype SectionTable = SectionTable(name: seq<bv8>, pointerToRawData: u32, sizeOfRawData: u32)

  /** One imported symbol; `dll` names the library it comes from. */
  datatype Import = Import(dll: string)

  /** One exported symbol; goblin leaves the name out for exports by ordinal. */
  datatype Export = Export(name: Option<string>)

  /**
   * `Ok(Object::PE(pe))`, `Ok(other)` (an ELF, Mach-O, archive or unknown blob, with the text
   * its `Debug` form prints) or `Err(e)`.
   */
  datatype Object =
    | PE(machine: u16, sections: seq<SectionTable>, imports: seq<Import>, exports: seq<Export>)
    | Other(debug: string)
    | ParseError(reason: string)
}
