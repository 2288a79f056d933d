/** The numbers of the source's headers, each beside the constant that stands for it. */
module Numbers {
  import Blocks
  import Bcache
  import File
  import Hybrid
  import Log
  import Memory
  import PageRun
  import PipeQueue
  import Proc
  import Shell
  import Spaces
  import Swapping
  import Umalloc
  import Volume

  // param.h, fs.h, fs.c and file.c.
  lemma DiskNumbers()
    ensures Blocks.BSIZE == 512 && Blocks.WORDS * 4 == 512 && Blocks.UINT == 4294967296
    ensures Log.MAXOPBLOCKS == 10 && Log.LOGSIZE == 3 * 10 && Bcache.NBUF == 3 * 10 && Bcache.ROOTDEV == 1
    ensures Volume.NDIRECT == 12 && Volume.NINDIRECT == 512 / 4 && Volume.MAXFILE == 12 + 128
    ensures Volume.BPB == 512 * 8 && Volume.IPB == 512 / 64
    ensures PageRun.NUM == 100000 && File.CHUNK == (10 - 1 - 1 - 2) / 2 * 512
  {
  }

  // mmu.h and memlayout.h.
  lemma PageNumbers()
    ensures Memory.PGSIZE == 4096 && Memory.ENTRIES == 1024 && Memory.FRAMES * 4096 == 4294967296
    ensures Memory.PTE_W == 2 && Memory.PTE_U == 4 && Swapping.PTE_SWAPPED == 512
    ensures Spaces.KERNBASE == 0x8000_0000 && Memory.USERPAGES * 4096 == Spaces.KERNBASE
    ensures Spaces.IOPAGES * 4096 == 0x10_0000 && Spaces.DEVPAGE * 4096 == 0xFE00_0000
  {
  }

  // param.h of both kernels, pipe.c, sh.c and umalloc.c.
  lemma OtherNumbers(n: nat)
    ensures Proc.NPROC == 64 && Proc.INT_MAX == 2147483647 && PipeQueue.PIPESIZE == 512
    ensures Hybrid.QUANTA == 2 && Hybrid.INT_MAX == 2147483647 && Hybrid.INT_MIN == -2147483648
    ensures Shell.MAXARGS == 10 && Umalloc.MoreUnits(n) >= n && Umalloc.MoreUnits(n) >= 4096
    ensures Umalloc.MoreUnits(n) == n || Umalloc.MoreUnits(n) == 4096
  {
  }

  // The characters that separate words in the shell, and its signs.
  lemma ShellCharacters(c: char)
    ensures Shell.White(c) <==> c == ' ' || c == '\t' || c == '\r' || c == '\n' || c == '\U{000B}'
    ensures Shell.Symbol(c) <==> c == '<' || c == '|' || c == '>' || c == '&' || c == ';' || c == '(' || c == ')'
  {
  }
}
