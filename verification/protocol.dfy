/** The packets and errors of the client side of the repository protocol
    (src/client.rs), reduced to what the chunk streams exchange. */
module Protocol {
  import opened Bytes
  import opened HTree
  import Crypto

  datatype Packet =
    | ChunkPacket(address: Address, data: bytes)
    | TSendSync
    | RSendSync
    | OtherPacket

  datatype ClientError =
    | ProtocolError          // a packet of the wrong kind arrived
    | EndOfStream            // `read_packet` found nothing more to read
    | CorruptOrTampered      // `ClientError::CorruptOrTamperedDataError`
    | TreeFailure(e: HTreeError)
    | DecryptFailure(d: Crypto.DecryptError)
    | FilesystemModified     // `SendDirError::FilesystemModified`
    | RangePanic             // a slice `data[start..end]` with `start > end`
}
