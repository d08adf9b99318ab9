/** The disk as an image in memory, read and written in 512-byte blocks. */
module DiskImage {
  import opened Words
  import opened FatLayout
  import opened Volumes

  class Image {
    const bytes: array<Byte>
    /** The image cut into clusters. */
    ghost var clusters: seq<Cluster>

    ghost predicate Valid()
      reads this, bytes
    {
      && bytes.Length == CLUSTER_SIZE * DISK_CLUSTERS
      && |clusters| == DISK_CLUSTERS
      && forall c :: 0 <= c < DISK_CLUSTERS ==>
           bytes[CLUSTER_SIZE * c..CLUSTER_SIZE * c + CLUSTER_SIZE] == clusters[c]
    }

    /** A disk of zeroes. */
    constructor ()
      ensures Valid() && fresh(bytes)
      ensures forall c :: 0 <= c < DISK_CLUSTERS ==> clusters[c] == Zeros(CLUSTER_SIZE)
    {
      bytes := new Byte[CLUSTER_SIZE * DISK_CLUSTERS](_ => 0);
      clusters := seq(DISK_CLUSTERS, _ => Zeros(CLUSTER_SIZE));
    }

    /** Copies `count` blocks from block `lba` on into `ptr`. */
    method ReadBlocks(ptr: array<Byte>, lba: nat, count: nat)
      requires ptr != bytes
      requires BLOCK_SIZE * count <= ptr.Length && BLOCK_SIZE * (lba + count) <= bytes.Length
      modifies ptr
      ensures ptr[..BLOCK_SIZE * count] == bytes[BLOCK_SIZE * lba..BLOCK_SIZE * (lba + count)]
      ensures ptr[BLOCK_SIZE * count..] == old(ptr[BLOCK_SIZE * count..])
    {
      for i := 0 to count
        invariant forall k :: 0 <= k < BLOCK_SIZE * i ==> ptr[k] == bytes[BLOCK_SIZE * lba + k]
        invariant forall k :: BLOCK_SIZE * i <= k < ptr.Length ==> ptr[k] == old(ptr[k])
      {
        forall k | 0 <= k < BLOCK_SIZE {
          ptr[BLOCK_SIZE * i + k] := bytes[BLOCK_SIZE * (lba + i) + k];
        }
      }
    }

    /** Copies the first `count` blocks of `src` to the disk, from block `lba` on. */
    method WriteBlocks(src: seq<Byte>, lba: nat, count: nat)
      requires BLOCK_SIZE * count <= |src| && BLOCK_SIZE * (lba + count) <= bytes.Length
      modifies bytes
      ensures forall k :: 0 <= k < bytes.Length ==> (
        bytes[k] == if BLOCK_SIZE * lba <= k < BLOCK_SIZE * (lba + count) then src[k - BLOCK_SIZE * lba]
                    else old(bytes[k]))
    {
      for i := 0 to count
        invariant forall k :: 0 <= k < bytes.Length ==> (
          bytes[k] == if BLOCK_SIZE * lba <= k < BLOCK_SIZE * (lba + i) then src[k - BLOCK_SIZE * lba]
                      else old(bytes[k]))
      {
        forall k | 0 <= k < BLOCK_SIZE {
          bytes[BLOCK_SIZE * (lba + i) + k] := src[BLOCK_SIZE * i + k];
        }
      }
    }

    /** First block of a cluster. */
    static function ClusterToLba(c: nat): nat {
      CLUSTER_BLOCK_COUNT * c
    }

    method ReadCluster(c: nat) returns (data: Cluster)
      requires Valid() && c < DISK_CLUSTERS
      ensures data == clusters[c]
    {
      var buf := new Byte[CLUSTER_SIZE];
      ReadBlocks(buf, ClusterToLba(c), CLUSTER_BLOCK_COUNT);
      data := buf[..];
      assert bytes[CLUSTER_SIZE * c..CLUSTER_SIZE * c + CLUSTER_SIZE] == clusters[c];
    }

    method WriteCluster(data: Cluster, c: nat)
      requires Valid() && c < DISK_CLUSTERS
      modifies this, bytes
      ensures Valid() && clusters == old(clusters)[c := data]
    {
      WriteBlocks(data, ClusterToLba(c), CLUSTER_BLOCK_COUNT);
      clusters := clusters[c := data];
      forall d | 0 <= d < DISK_CLUSTERS
        ensures bytes[CLUSTER_SIZE * d..CLUSTER_SIZE * d + CLUSTER_SIZE] == clusters[d]
      {
        if d != c {
          assert old(bytes[CLUSTER_SIZE * d..CLUSTER_SIZE * d + CLUSTER_SIZE]) == old(clusters)[d];
        }
      }
    }

    /** Overwrites the boot block, which is the first quarter of cluster 0. */
    method WriteBoot(data: seq<Byte>)
      requires Valid() && |data| == BLOCK_SIZE
      modifies this, bytes
      ensures Valid() && clusters == old(clusters)[0 := data + old(clusters)[0][BLOCK_SIZE..]]
    {
      WriteBlocks(data, 0, 1);
      clusters := clusters[0 := data + clusters[0][BLOCK_SIZE..]];
      assert old(bytes[CLUSTER_SIZE * 0..CLUSTER_SIZE * 0 + CLUSTER_SIZE]) == old(clusters)[0];
      forall d | 0 <= d < DISK_CLUSTERS
        ensures bytes[CLUSTER_SIZE * d..CLUSTER_SIZE * d + CLUSTER_SIZE] == clusters[d]
      {
        if d != 0 {
          assert old(bytes[CLUSTER_SIZE * d..CLUSTER_SIZE * d + CLUSTER_SIZE]) == old(clusters)[d];
        }
      }
    }

    method ReadBoot() returns (data: seq<Byte>)
      requires Valid()
      ensures data == clusters[0][..BLOCK_SIZE]
    {
      var buf := new Byte[BLOCK_SIZE];
      ReadBlocks(buf, 0, 1);
      data := buf[..];
      assert bytes[CLUSTER_SIZE * 0..CLUSTER_SIZE * 0 + CLUSTER_SIZE] == clusters[0];
    }
  }
}
