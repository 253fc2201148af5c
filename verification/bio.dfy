/**
  Block I/O requests (`struct bio`) as the proxy target sees them: a data
  direction, an operation, a byte length, a start sector and the block device
  the request is addressed to. Only the fields the target reads or rewrites
  are modelled; the payload is never inspected.
 */
module Bio {

  /** Bytes per sector: the kernel's `SECTOR_SHIFT` is 9. */
  const SECTOR_SIZE: nat := 512

  const U32_LIMIT: nat := 0x1_0000_0000
  const U64_LIMIT: nat := 0x1_0000_0000_0000_0000

  /** `unsigned int`, the type of `bi_iter.bi_size`. */
  type U32 = n: nat | n < U32_LIMIT

  /** `u64` / `sector_t`. */
  type U64 = n: nat | n < U64_LIMIT

  /** The result of `bio_data_dir`: every request is either READ or WRITE. */
  datatype Dir = Read | Write

  /** The operation of a request (`bio_op`); the target only checks for FLUSH. */
  datatype Op = OpRead | OpWrite | OpFlush | OpDiscard | OpOther

  /** A block device handle (`struct block_device *`), compared by identity only. */
  type BlockDev = nat

  datatype Bio = Bio(dir: Dir, op: Op, size: U32, sector: U64, bdev: BlockDev)

  /** `bio_sectors`: the length in whole sectors, `bi_size >> SECTOR_SHIFT`. */
  function Sectors(b: Bio): (n: nat)
    ensures n * SECTOR_SIZE <= b.size < (n + 1) * SECTOR_SIZE
    ensures n > 0 <==> b.size >= SECTOR_SIZE
  {
    b.size / SECTOR_SIZE
  }
}
