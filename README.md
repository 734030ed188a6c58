# linuxload: the user-mode exec path of qemu-cgc, in Dafny

This project models the core of `cgc-user/linuxload.c`, the part of the
qemu-cgc user-mode emulator that starts a new process image. Four routines
are modelled:

- `count`: the length of a NULL-terminated host vector.
- `prepare_binprm`: the file mode checks, the effective uid and gid, and the header buffer.
- `loader_build_argptr`: the argc word and the argv and envp pointer tables, on the target stack.
- `loader_exec`: the orchestrator. It fills the binary-parameters record and dispatches on the header magic. In the CGC build it fills the flag page, maps the stack region and installs the fixed stack values. On failure it frees the argument pages.

The routines change state step by step, and the model keeps that form:

- `struct linux_binprm`, `struct image_info` and the target registers are classes whose fields the methods update.
- The header buffer and the page slots are arrays.
- Target memory is a class holding a map of abi_ulong words, a map of bytes and a log of mapping requests.
- Every loop of the source is a `while` or `for` loop with its invariants.

Files:

- `target_memory.dfy` (module `TargetMemory`): target memory, `put_user_ual` and `target_strlen`, and the layout of NUL-terminated strings copied back to back. It also holds the lemmas that read such a block back string by string.
- `image.dfy` (module `Image`): the `image_info` fields this core touches.
- `binprm.dfy` (module `Binprm`): the record, the open executable, `count` and `prepare_binprm`.
- `argptr.dfy` (module `ArgPtr`): `loader_build_argptr`.
- `exec.dfy` (module `Exec`): `loader_exec`, split into the steps it takes in order.

## Behaviour worth noting

- The CGC block runs whenever `loader_exec` has not returned early, including when `retval` is negative. So it also runs after a failed `prepare_binprm` and after a failed format loader.
- An unrecognised magic returns `-ENOEXEC` at once, before the CGC block and the free loop. At that point every page slot is still empty, so no page is lost.
- A failed `prepare_binprm` does not return at once either. The CGC block runs, and then the free loop runs over slots that are all empty.
- The stack region holds `(start_stack - stack_limit) / 4096 + 1` pages, computed in 32-bit unsigned arithmetic, which is floor(distance / 4096) + 1. A distance that is an exact multiple of 4096 therefore gets one page more than a round-up would give.

## Model

| member | source | states |
|---|---|---|
| Binprm.Count | cgc-user/linuxload.c:30-39 | The returned i is the index of the first NULL: `vec[i]` is NULL and no entry before it is. |
| Binprm.OpenFile.Read | cgc-user/linuxload.c:77 | A read of a regular file returns min(count, bytes left), copies exactly those bytes from the offset, advances the offset by as many, and leaves the rest of the buffer alone. An I/O error returns a negative value and changes nothing. |
| Binprm.PrepareBinprm | cgc-user/linuxload.c:41-87 | The checks run in order: a failed fstat gives -errno, a non-regular file -EACCES, no execute bit -EACCES. A failed check changes neither the credentials, the file offset nor the buffer. `e_uid` is `st_uid` exactly when set-uid is set; `e_gid` is `st_gid` exactly when set-gid and group-execute are both set. A read error ends the process with status -1. On success the result r is at most 1024, `buf[0..r)` holds the file's leading bytes, `buf[r..1024)` is zero, and the file offset has advanced by r. |
| TargetMemory.Memory.PutUserUal | cgc-user/linuxload.c:105 | One word is stored at the given address and no other word changes. |
| TargetMemory.Memory.Strlen | cgc-user/linuxload.c:117 | For a C string s sitting at p, the length returned is \|s\|. |
| TargetMemory.OffsetNext | cgc-user/linuxload.c:116-117 | The cursor after string i is the cursor before it plus strlen + 1. |
| TargetMemory.FlattenLength | cgc-user/linuxload.c:117 | The copied block is as long as the sum of strlen + 1 over its strings. |
| TargetMemory.SpanLenAppend | cgc-user/linuxload.c:119-126 | The span of the arguments followed by the environment is the sum of the two spans. The environment walk therefore continues from `arg_end`. |
| TargetMemory.StringAtPointer | cgc-user/linuxload.c:113-118 | When a vector of NUL-free strings is copied back to back at p, string i is a C string at p plus the span of the strings before it. |
| TargetMemory.PlacedLaidOut | cgc-user/linuxload.c:112-127 | In the combined block at `stringp`, every argument is a C string at its offset from `stringp`, and every environment string is one at its offset from the end of the arguments. |
| ArgPtr.LayoutTiles | cgc-user/linuxload.c:98-111 | The envp table ends at the incoming sp and the argv table ends where envp begins. The argc word sits at sp - (envc + argc + 3 + (push_ptr ? 2 : 0)) * n, below both tables. |
| ArgPtr.PushHeader | cgc-user/linuxload.c:102-111 | With push_ptr, the word at argv - n holds the envp table address and the word at argv - 2n the argv table address. argc is stored at the returned address, and nothing outside that range changes. |
| ArgPtr.PutTable | cgc-user/linuxload.c:113-129 | Entry i of the table holds the address of string i, the entry after the last holds 0, and the walk ends at p plus the strings' span. No word outside the table changes. |
| ArgPtr.TableReadsBack | cgc-user/linuxload.c:113-129 | Following table entry i reads back exactly string i as a C string. |
| ArgPtr.TableKept | cgc-user/linuxload.c:122-129 | Writing the envp table leaves the argv table below it intact. |
| ArgPtr.LoaderBuildArgptr | cgc-user/linuxload.c:90-132 | The returned sp is sp0 - (envc + argc + 3 + (push_ptr ? 2 : 0)) * n, and argc is stored there. The pushed words hold the two table addresses. `arg_start` is the incoming `stringp` and `arg_end` is `stringp` plus the arguments' span. argv entries point at the argument strings and end with 0; envp entries continue from `arg_end` and end with 0. Only words in [result, sp0) change, and the string bytes are untouched. |
| Exec.InitBinprm | cgc-user/linuxload.c:141-148 | `p` is 4096 * 33 - 4 and every page slot is empty. `fd`, `filename`, `argv` and `envp` are the caller's. `argc` and `envc` are the index of the first NULL of each vector. The credentials are untouched. |
| Exec.OpenExec | cgc-user/linuxload.c:141-150 | Once the record is initialised, the result is what `prepare_binprm` decides for the file. When the mode checks pass, `e_uid` is the file owner exactly under set-uid and the caller's euid otherwise; `e_gid` is the file group exactly under set-gid with group-execute and the caller's egid otherwise. When they fail, the credentials, the header buffer and the file offset are unchanged. A non-negative result r is at most 1024, the header holds the r file bytes from the incoming offset, the rest of it is zero, and the offset has advanced by r. |
| Exec.Sniff | cgc-user/linuxload.c:153-166 | The ELF loader is chosen exactly when the header starts 7F 'C' 'G' 'C'. The flat loader is chosen exactly when flat support is built in and the header starts 'b' 'F' 'L' 'T'. Otherwise the format is unrecognised. |
| Exec.Dispatched | cgc-user/linuxload.c:150-168 | There is no dispatch exactly when `prepare_binprm` returned a negative value. The format is unknown exactly when it succeeded and the magic matched nothing. A CGC ELF magic dispatches to exactly the ELF loader's run; a flat magic with flat support dispatches to exactly the flat loader's run. |
| Exec.RunLoader | cgc-user/linuxload.c:157 | The loader's result is returned, its stack and argument values are in `image_info`, and the slots it filled are held. Its target word and byte writes are applied over the old memory, and its mapping requests are appended to the log. |
| Exec.RunFormatLoader | cgc-user/linuxload.c:153-167 | The matching loader runs and its result, target writes and mappings are applied. An unknown magic is reported with the page slots, `image_info` and target memory unchanged. |
| Exec.StackPagesNum | cgc-user/linuxload.c:180 | The page count is between 1 and 2^20. Taking the distance start_stack - stack_limit modulo 2^32, count - 1 whole pages fit in it and count pages exceed it. |
| Exec.StackMappingEndsAtLimit | cgc-user/linuxload.c:177-197 | For a loader stack with `stack_limit <= start_stack` and a distance below 0xBAAAB000 (any longer mapping would start below address 0 and wrap), the stack mapping is a whole number of pages, ends exactly at 0xBAAAB000, and is longer than the loader's stack. |
| Exec.FillFlagPage | cgc-user/linuxload.c:187-192 | All 1024 32-bit words of the flag page hold 0x4342434C, and no word outside the page changes. |
| Exec.CgcSetup | cgc-user/linuxload.c:183-204 | Two mappings are logged: the flag page at 0x4347C000, read/write, 4096 bytes; then the stack region computed from the loader's values, read/write/exec. The flag page is filled. `ecx` is the flag page address, `start_stack` is 0xBAAAAFFC and `stack_limit` is 0xBAAAB000. |
| Exec.FreeArgPages | cgc-user/linuxload.c:213-216 | Every held slot is released once and empty slots stay empty. Afterwards no slot is held. |
| Exec.FinishExec | cgc-user/linuxload.c:183-217 | The CGC block runs whatever `retval` is. A non-negative `retval` starts the thread and keeps the pages. A negative one leaves the thread alone and releases every slot. `retval` is returned. |
| Exec.LoaderExec | cgc-user/linuxload.c:134-218 | The record is initialised with the credentials, header and file offset `prepare_binprm` leaves, and failed mode checks leave the header and offset as they were. A header read error ends the process with target memory, registers and `image_info` unchanged. An unknown magic returns -ENOEXEC with every slot empty and target memory, registers and `image_info` all unchanged. Otherwise it returns the loader's result, or `prepare_binprm`'s error. The string byte map changes only by the loader's writes. The CGC block has run (when built in) on the loader's stack values, or on the incoming ones when no loader ran; its mappings follow the loader's, and its words are the only change beyond the loader's. Success starts the thread with the loader's pages held; failure releases each held page once. |

## Left out

- `fstat`, `read`, `geteuid`/`getegid`, `perror` and `exit` are not called. The stat result, the file bytes, the I/O-error flag and the caller's credentials are inputs. `read` is modelled as a read of a regular file, so it returns fewer bytes than asked only at end of file. `exit(-1)` becomes the `Exited(-1)` outcome.
- `load_elf_binary`, `load_flt_binary` and `do_init_thread` are not part of this model. Each loader is given as the values it returns and fills in: its result, the `image_info` stack and argument fields, the page slots it claims, the target words and bytes it writes, and the mappings it requests. Thread start is a flag on the register block.
- `target_mmap` is modelled as a log of requests. The flag page's address is an input, and a failing mapping is not modelled. `lock_user`/`unlock_user` are modelled as direct access to target words, and `put_user_ual` always succeeds.
- Byte order is not modelled. Target words are whole integers in a map, and n = sizeof(abi_ulong) is a parameter.
- Target memory is two separate views that do not alias: a map of abi_ulong words and a map holding the bytes of the copied strings. Words stored by `put_user_ual` and by the flag-page fill do not show up as bytes, and the statements about the byte map are about the string bytes only.
- `memcpy_to_target` (cgc-user/linuxload.c:17-28) is not modelled. It is a lock, copy and unlock wrapper and adds nothing to the memory model.
- The `TaskState` reached through `thread_cpu` is not modelled. `loader_build_argptr` takes the `image_info` record as a parameter.
- `CONFIG_CGC_USER` and `TARGET_HAS_BFLT` are boolean inputs, not compile-time variants.
- `g_free` is modelled as a slot that goes from held to freed; `g_free(NULL)` leaves an empty slot as it is.
- `qemu.h` is not part of this model. `BPRM_BUF_SIZE`, `MAX_ARG_PAGES` and `TARGET_PAGE_SIZE` are defined there; the model uses 1024, 33 and 4096, the values for the i386 target, together with the Linux errno values EIO = 5, EACCES = 13 and ENOEXEC = 8.
- ArgPtr.LoaderBuildArgptr: does not model abi_ulong wrap-around. It requires that the frame and the string block lie within the n-byte address range, that they do not overlap, and that argc and envc are the numbers of strings actually copied (so neither is negative).
- ArgPtr.LoaderBuildArgptr: strings are assumed to be copied before the call. Their bytes are the requirement, not something this routine produces.
- Exec.LoaderExec: requires the loaders' stack values and the incoming `image_info` stack values to be valid 32-bit target addresses. The values `image_info` holds before the call are inputs.
