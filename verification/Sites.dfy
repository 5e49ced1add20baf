/** The place of an instruction in a function. */
module Sites {

  datatype Site = Site(block: nat, index: nat)
}
