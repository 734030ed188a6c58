/** The image_info record: what the format loader reports about the new
    process image, read afterwards by register initialisation. Only the
    fields this core reads or writes are modelled. */
module Image {

  class ImageInfo {
    /** Initial target stack pointer. */
    var startStack: int
    /** Lowest valid target stack address. */
    var stackLimit: int
    /** Target address where the copied argument strings begin. */
    var argStart: int
    /** Target address just past the last argument string's terminator. */
    var argEnd: int
  }
}
