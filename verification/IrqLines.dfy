/** The interrupt lines of a module that observes them all. */
module IrqLines {

  /** Registration of a line in get_irqs: not yet, requested, and its counter reset to 0. */
  datatype Phase = Unregistered | Window | Ready
}
