/** Error numbers and sentinel ids shared by the models (Linux errno values). */
module Errno {
  /** No such entry. */
  const ENOENT: int := 2
  /** Entry already exists. */
  const EEXIST: int := 17
  /** Invalid argument. */
  const EINVAL: int := 22

  /** CEPH_NOSNAP, `(uint64_t)-2`: the "no snapshot" id that stands for the image head. */
  const NOSNAP: nat := 0xFFFF_FFFF_FFFF_FFFE
}
