/**
  The stored records the pages and the export buttons read: a dataset row
  with the name of the teammate who uploaded it (`include: { uploadedBy: true }`).
 */
module Schema {

  /** `createdAt` is the row's timestamp in milliseconds since the epoch. */
  datatype Dataset = Dataset(
    id: string,
    instruction: string,
    input: string,
    output: string,
    createdAt: int,
    uploaderName: string)
}
