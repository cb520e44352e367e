/** The two selections the ship design dialog keeps: which kind of design it
    browses, and which sub-view of that kind it shows. The dialog's slots take
    plain integers, but the only values ever delivered are the ones the signal
    mappers attach to the mode buttons, which are exactly these constructors. */
module Modes {

  /** SDDDM_SHIPS and SDDDM_STARBASES. */
  datatype DesignMode = Ships | Starbases

  /** SDDVM_EXISTING, SDDVM_AVAILABLE, SDDVM_ENEMY and SDDVM_COMPONENTS. */
  datatype ViewMode = Existing | Available | Enemy | Components
}
